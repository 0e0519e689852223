/** The synchronous engine of cache2_hal_aio.cc: nested loops over blocks, shards and tensors. */
module PsyncEngine {
  import opened Machine
  import opened FileTransfer
  import opened Storage
  import opened TextRecord
  import opened Whole
  import opened Engines
  import AioImages

  /** The tensor size: an option that divides the slot, or else the whole slot. */
  predicate TensorOk(bytes: nat, opt: Options) {
    bytes > 0 && opt.slotBytes > 0 && Mod(opt.slotBytes, bytes) == 0
  }

  /** The next tensor of a slot lies inside it, and what remains is again a number of whole tensors. */
  lemma NextTensor(io: Io, pos: nat, bytes: nat, opt: Options)
    requires opt.Valid() && TensorOk(bytes, opt) && Placed(io, opt) && io.len == opt.slotBytes
    requires pos < opt.slotBytes && Mod(opt.slotBytes - pos, bytes) == 0
    ensures pos + bytes <= opt.slotBytes && Mod(opt.slotBytes - pos - bytes, bytes) == 0
    ensures Placed(Part(io, pos, bytes), opt)
  {
  }

  /** Writes one tensor at the end of what has been written of the file so far. */
  method WriteTensor(disk: Disk, fd: nat, opt: Options, part: Io, paths: seq<string>, buffer: array<byte>,
                     ghost start: Files, ghost seen0: set<Files>, ghost trace0: seq<Op>)
      returns (ok: bool, ghost trace: seq<Op>)
    requires disk.Valid() && Setting(paths, buffer[..], opt)
    requires Placed(part, opt) && part.pos + part.len <= buffer.Length
    requires fd in disk.open && disk.open[fd] == paths[part.block]
    requires Dumping(start, seen0, disk.files, disk.seen, trace0, paths, buffer[..], opt)
    requires FileWritten(trace0, paths[part.block], part.offset)
    modifies disk`files, disk`seen, disk`failures
    ensures disk.Valid() && trace0 <= trace
    ensures disk.failures >= old(disk.failures) && (ok <==> disk.failures == old(disk.failures))
    ensures Dumping(start, seen0, disk.files, disk.seen, trace, paths, buffer[..], opt)
    ensures ok ==> FileWritten(trace, paths[part.block], part.offset + part.len)
  {
    hide Dumping;
    var n;
    n, trace := WritePart(disk, fd, part, opt, paths, buffer, start, seen0, trace0);
    ok := n == part.len;
    if ok {
      FileWrittenNext(trace0, WriteOf(part, n, paths, buffer[..]), part.offset);
    }
  }

  /** Writes one slot, tensor by tensor; a short write throws. */
  method WriteSlot(disk: Disk, fd: nat, opt: Options, bytes: nat, io: Io, paths: seq<string>, buffer: array<byte>,
                   ghost start: Files, ghost seen0: set<Files>, ghost trace0: seq<Op>)
      returns (ok: bool, ghost trace: seq<Op>)
    requires disk.Valid() && TensorOk(bytes, opt) && Setting(paths, buffer[..], opt)
    requires Placed(io, opt) && io.len == opt.slotBytes && io.pos + io.len <= buffer.Length
    requires fd in disk.open && disk.open[fd] == paths[io.block]
    requires Dumping(start, seen0, disk.files, disk.seen, trace0, paths, buffer[..], opt)
    requires FileWritten(trace0, paths[io.block], io.offset)
    modifies disk`files, disk`seen, disk`failures
    ensures disk.Valid() && trace0 <= trace
    ensures disk.failures >= old(disk.failures) && (ok <==> disk.failures == old(disk.failures))
    ensures Dumping(start, seen0, disk.files, disk.seen, trace, paths, buffer[..], opt)
    ensures ok ==> FileWritten(trace, paths[io.block], io.offset + io.len)
  {
    trace := trace0;
    var pos := 0;
    ghost var data := buffer[..];
    while pos < opt.slotBytes
      invariant disk.Valid() && trace0 <= trace && data == buffer[..] && disk.failures == old(disk.failures)
      invariant pos <= opt.slotBytes && Mod(opt.slotBytes - pos, bytes) == 0
      invariant Dumping(start, seen0, disk.files, disk.seen, trace, paths, data, opt)
      invariant FileWritten(trace, paths[io.block], io.offset + pos)
    {
      NextTensor(io, pos, bytes, opt);
      ok, trace := WriteTensor(disk, fd, opt, Part(io, pos, bytes), paths, buffer, start, seen0, trace);
      if !ok {
        return;
      }
      pos := pos + bytes;
    }
    ok := true;
  }

  /** One shard of a dump: the file is opened, written and closed; the descriptor is closed on failure too. */
  method DumpShard(disk: Disk, opt: Options, bytes: nat, io: Io, paths: seq<string>, buffer: array<byte>,
                   ghost start: Files, ghost seen0: set<Files>, ghost trace0: seq<Op>)
      returns (ok: bool, ghost trace: seq<Op>)
    requires disk.Valid() && TensorOk(bytes, opt) && Setting(paths, buffer[..], opt)
    requires Placed(io, opt) && io.len == opt.slotBytes && io.pos + io.len <= buffer.Length
    requires Dumping(start, seen0, disk.files, disk.seen, trace0, paths, buffer[..], opt)
    requires FileWritten(trace0, paths[io.block], io.offset)
    modifies disk
    ensures disk.Valid() && trace0 <= trace && disk.open == old(disk.open)
    ensures disk.failures >= old(disk.failures) && (ok <==> disk.failures == old(disk.failures))
    ensures Dumping(start, seen0, disk.files, disk.seen, trace, paths, buffer[..], opt)
    ensures ok ==> FileWritten(trace, paths[io.block], io.offset + io.len)
  {
    var fd;
    ok, fd, trace := OpenForDump(disk, paths[io.block], opt, paths, buffer[..], start, seen0, trace0);
    if !ok {
      return;
    }
    FileWrittenGrows(trace0, trace, paths[io.block], io.offset);
    ok, trace := WriteSlot(disk, fd, opt, bytes, io, paths, buffer, start, seen0, trace);
    var closed := disk.Close(fd);
    ok := ok && closed;
  }

  /** One block of a dump: the file is opened and closed again for every shard. */
  method DumpBlock(disk: Disk, opt: Options, bytes: nat, block: nat, paths: seq<string>, buffer: array<byte>,
                   ghost start: Files, ghost seen0: set<Files>, ghost trace0: seq<Op>)
      returns (ok: bool, ghost trace: seq<Op>)
    requires disk.Valid() && TensorOk(bytes, opt) && Setting(paths, buffer[..], opt) && block < opt.blocks
    requires Dumping(start, seen0, disk.files, disk.seen, trace0, paths, buffer[..], opt)
    modifies disk
    ensures disk.Valid() && trace0 <= trace && disk.open == old(disk.open)
    ensures disk.failures >= old(disk.failures) && (ok <==> disk.failures == old(disk.failures))
    ensures Dumping(start, seen0, disk.files, disk.seen, trace, paths, buffer[..], opt)
    ensures ok ==> FileWritten(trace, paths[block], BlockBytes(opt))
  {
    trace := trace0;
    for shard := 0 to opt.shards
      invariant disk.Valid() && trace0 <= trace && disk.open == old(disk.open) && disk.failures == old(disk.failures)
      invariant Dumping(start, seen0, disk.files, disk.seen, trace, paths, buffer[..], opt)
      invariant FileWritten(trace, paths[block], Times(shard, opt.slotBytes))
    {
      ok, trace := DumpShard(disk, opt, bytes, Slot(block, shard, opt), paths, buffer, start, seen0, trace);
      if !ok {
        return;
      }
      TimesNext(shard, opt.slotBytes);
    }
    ok := true;
  }

  /** `Transfer` for a dump: it passes if and only if no call fails or comes up short. */
  method PsyncDump(disk: Disk, opt: Options, bytes: nat, paths: seq<string>, buffer: array<byte>) returns (ok: bool)
    requires disk.Valid() && TensorOk(bytes, opt) && Setting(paths, buffer[..], opt)
    modifies disk
    ensures disk.Valid() && disk.open == old(disk.open)
    ensures disk.failures >= old(disk.failures) && (ok <==> disk.failures == old(disk.failures))
    ensures SameOutside(old(disk.files), disk.files, paths)
    ensures Confined(old(disk.files), old(disk.seen), disk.seen, paths)
    ensures ok ==> Dumped(old(disk.files), disk.files, paths, buffer[..], opt)
    ensures ok ==> AioImages.AsEveryDump(old(disk.files), disk.files, paths, buffer[..], opt)
  {
    ghost var start, seen0 := disk.files, disk.seen;
    ghost var trace := [];
    for block := 0 to opt.blocks
      invariant disk.Valid() && disk.open == old(disk.open) && disk.failures == old(disk.failures)
      invariant Dumping(start, seen0, disk.files, disk.seen, trace, paths, buffer[..], opt)
      invariant BlocksWritten(trace, paths, block, opt)
    {
      ghost var earlier := trace;
      ok, trace := DumpBlock(disk, opt, bytes, block, paths, buffer, start, seen0, trace);
      if !ok {
        return;
      }
      BlocksWrittenGrow(earlier, trace, paths, block, opt);
    }
    ok := true;
    assert AllWritten(trace, paths, opt);
    CompleteDump(start, trace, paths, buffer[..], opt);
    AioImages.DumpsAgree(start, disk.files, paths, buffer[..], opt);
  }

  ghost predicate Restored(buffer: array<byte>, x: seq<byte>, end: nat)
    reads buffer
    requires buffer.Length == |x|
  {
    forall p :: 0 <= p < end && p < |x| ==> buffer[p] == x[p]
  }

  method ReadSlot(disk: Disk, fd: nat, opt: Options, bytes: nat, io: Io, paths: seq<string>, buffer: array<byte>,
                  ghost x: seq<byte>)
      returns (ok: bool)
    requires disk.Valid() && TensorOk(bytes, opt) && Setting(paths, x, opt)
    requires Placed(io, opt) && io.len == opt.slotBytes && buffer.Length == |x| && io.pos + io.len <= buffer.Length
    requires fd in disk.open && disk.open[fd] == paths[io.block]
    requires Agrees(disk.files, paths, x, opt) && Restored(buffer, x, io.pos)
    modifies buffer, disk`failures
    ensures disk.failures >= old(disk.failures) && (ok ==> disk.failures == old(disk.failures))
    ensures disk.failures == old(disk.failures) && LongEnough(old(disk.files), paths, opt) ==> ok
    ensures ok ==> Restored(buffer, x, io.pos + io.len)
  {
    var pos := 0;
    while pos < opt.slotBytes
      invariant pos <= opt.slotBytes && Mod(opt.slotBytes - pos, bytes) == 0 && disk.failures == old(disk.failures)
      invariant Restored(buffer, x, io.pos + pos)
    {
      NextTensor(io, pos, bytes, opt);
      var part := Part(io, pos, bytes);
      var n := ReadPart(disk, fd, part, opt, paths, buffer, x);
      if n != bytes {
        return false;
      }
      pos := pos + bytes;
    }
    ok := true;
  }

  /** One block of a load: the file stays open over all its shards. */
  method LoadBlock(disk: Disk, opt: Options, bytes: nat, block: nat, paths: seq<string>, buffer: array<byte>,
                   ghost x: seq<byte>)
      returns (ok: bool)
    requires disk.Valid() && TensorOk(bytes, opt) && Setting(paths, x, opt) && block < opt.blocks
    requires buffer.Length == |x| && Agrees(disk.files, paths, x, opt)
    requires Restored(buffer, x, Times(block, BlockBytes(opt)))
    modifies disk, buffer
    ensures disk.Valid() && disk.open == old(disk.open) && disk.files == old(disk.files)
    ensures disk.seen == old(disk.seen) + {disk.files}
    ensures disk.failures >= old(disk.failures) && (ok ==> disk.failures == old(disk.failures))
    ensures disk.failures == old(disk.failures) && LongEnough(old(disk.files), paths, opt) ==> ok
    ensures ok ==> Restored(buffer, x, Times(block + 1, BlockBytes(opt)))
  {
    var fd;
    ok, fd := disk.Open(paths[block], false);
    if !ok {
      return;
    }
    for shard := 0 to opt.shards
      invariant disk.Valid() && disk.open == old(disk.open)[fd := paths[block]] && disk.files == old(disk.files)
      invariant disk.seen == old(disk.seen) + {disk.files} && disk.failures == old(disk.failures)
      invariant Restored(buffer, x, Times(block, BlockBytes(opt)) + Times(shard, opt.slotBytes))
    {
      ok := ReadSlot(disk, fd, opt, bytes, Slot(block, shard, opt), paths, buffer, x);
      if !ok {
        var ignored := disk.Close(fd);
        return;
      }
      TimesNext(shard, opt.slotBytes);
    }
    TimesNext(block, BlockBytes(opt));
    ok := disk.Close(fd);
  }

  /** `Transfer` for a load: it fails only by a call that fails or comes up short, or by a file that is shorter
      than its block. */
  method PsyncLoad(disk: Disk, opt: Options, bytes: nat, paths: seq<string>, buffer: array<byte>, ghost x: seq<byte>)
      returns (ok: bool)
    requires disk.Valid() && TensorOk(bytes, opt) && Setting(paths, x, opt)
    requires buffer.Length == |x| && Agrees(disk.files, paths, x, opt)
    modifies disk, buffer
    ensures disk.Valid() && disk.open == old(disk.open) && disk.files == old(disk.files)
    ensures disk.seen == old(disk.seen)
    ensures disk.failures >= old(disk.failures) && (ok ==> disk.failures == old(disk.failures))
    ensures disk.failures == old(disk.failures) && LongEnough(old(disk.files), paths, opt) ==> ok
    ensures ok ==> buffer[..] == x
    ensures AioImages.AsEveryLoad(old(disk.files), x, paths, opt)
  {
    AioImages.LoadsAgree(disk.files, x, paths, opt);
    for block := 0 to opt.blocks
      invariant disk.Valid() && disk.open == old(disk.open) && disk.files == old(disk.files)
      invariant disk.seen == old(disk.seen) && disk.failures == old(disk.failures)
      invariant Restored(buffer, x, Times(block, BlockBytes(opt)))
    {
      ok := LoadBlock(disk, opt, bytes, block, paths, buffer, x);
      if !ok {
        return;
      }
    }
    BytesAreBlocks(opt);
    ok := true;
  }
}

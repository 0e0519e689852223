/** `Transfer` of cache2_hal_aio.cc: the asynchronous and the synchronous engine move the same buffer
    to and from the same files. */
module Engines {
  import opened Machine
  import opened FileTransfer
  import opened Storage
  import opened TextRecord
  import opened Whole

  ghost predicate Distinct(paths: seq<string>) {
    forall i, j :: 0 <= i < j < |paths| ==> paths[i] != paths[j]
  }

  /** The part of a buffer that belongs to one block. */
  function BlockOf(data: seq<byte>, b: nat, opt: Options): (image: seq<byte>)
    requires opt.Valid() && |data| == opt.Bytes() && b < opt.blocks
    ensures |image| == BlockBytes(opt)
  {
    BlockInside(b, opt);
    data[Times(b, BlockBytes(opt))..Times(b, BlockBytes(opt)) + BlockBytes(opt)]
  }

  lemma BlockInside(b: nat, opt: Options)
    requires opt.Valid() && b < opt.blocks
    ensures Times(b, BlockBytes(opt)) + BlockBytes(opt) <= opt.Bytes()
  {
    BytesAreBlocks(opt);
    TimesNext(b, BlockBytes(opt));
    TimesMonotone(b + 1, opt.blocks, BlockBytes(opt));
  }

  /** The setting of one transfer. */
  ghost predicate Setting(paths: seq<string>, data: seq<byte>, opt: Options) {
    opt.Valid() && |paths| == opt.blocks && Distinct(paths) && |data| == opt.Bytes()
  }

  /** An operation on one of the files that writes the right piece in the right place. */
  ghost predicate Fits(op: Op, paths: seq<string>, data: seq<byte>, opt: Options)
    requires Setting(paths, data, opt)
  {
    op.path in paths && forall b :: 0 <= b < opt.blocks ==> Faithful(op, paths[b], BlockOf(data, b, opt))
  }

  ghost predicate AllFit(trace: seq<Op>, paths: seq<string>, data: seq<byte>, opt: Options)
    requires Setting(paths, data, opt)
  {
    forall j :: 0 <= j < |trace| ==> Fits(trace[j], paths, data, opt)
  }

  /** The write of (the first `n` bytes of) a transfer. */
  function WriteOf(io: Io, n: nat, paths: seq<string>, data: seq<byte>): Op
    requires io.block < |paths| && io.pos + n <= |data|
  {
    Write(paths[io.block], io.offset, data[io.pos..io.pos + n])
  }

  lemma PlacedFits(io: Io, n: nat, paths: seq<string>, data: seq<byte>, opt: Options)
    requires Setting(paths, data, opt) && Placed(io, opt) && n <= io.len
    ensures io.pos + io.len <= |data|
    ensures Fits(WriteOf(io, n, paths, data), paths, data, opt)
  {
    BlockInside(io.block, opt);
    var op := WriteOf(io, n, paths, data);
    forall b | 0 <= b < opt.blocks
      ensures Faithful(op, paths[b], BlockOf(data, b, opt))
    {
      if b == io.block {
        var base, size := Times(b, BlockBytes(opt)), BlockBytes(opt);
        SliceOfSlice(data, base, base + size, io.offset, io.offset + n);
      } else {
        assert paths[b] != paths[io.block];
      }
    }
  }

  lemma SliceOfSlice(data: seq<byte>, lo: nat, hi: nat, a: nat, b: nat)
    requires lo <= hi <= |data| && a <= b <= hi - lo
    ensures data[lo..hi][a..b] == data[lo + a..lo + b]
  {
    var x, y := data[lo..hi][a..b], data[lo + a..lo + b];
    assert |x| == |y| && forall k :: 0 <= k < |x| ==> x[k] == data[lo + (a + k)] == y[k];
  }

  /** Every byte of every block is written by some operation. */
  ghost predicate AllWritten(trace: seq<Op>, paths: seq<string>, opt: Options)
    requires |paths| == opt.blocks
  {
    forall b, k :: 0 <= b < opt.blocks && 0 <= k < BlockBytes(opt) ==> WrittenIn(trace, paths[b], k)
  }

  /** What a complete dump leaves. */
  ghost predicate Dumped(before: Files, now: Files, paths: seq<string>, data: seq<byte>, opt: Options)
    requires Setting(paths, data, opt)
  {
    forall b :: 0 <= b < opt.blocks ==> DumpedTo(before, now, paths[b], BlockOf(data, b, opt))
  }

  ghost predicate DumpedTo(before: Files, now: Files, path: string, image: seq<byte>) {
    path in now && now[path] == Overlay(Content(before, path), image)
  }

  lemma {:induction false} WrittenExists(before: Files, trace: seq<Op>, i: nat)
    requires i < |trace|
    ensures trace[i].path in Apply(before, trace)
    decreases |trace|
  {
    var last := |trace| - 1;
    if i < last {
      WrittenExists(before, trace[..last], i);
    }
  }

  lemma CompleteDump(before: Files, trace: seq<Op>, paths: seq<string>, data: seq<byte>, opt: Options)
    requires Setting(paths, data, opt) && AllFit(trace, paths, data, opt) && AllWritten(trace, paths, opt)
    ensures Dumped(before, Apply(before, trace), paths, data, opt)
  {
    forall b | 0 <= b < opt.blocks
      ensures DumpedTo(before, Apply(before, trace), paths[b], BlockOf(data, b, opt))
    {
      var image := BlockOf(data, b, opt);
      assert Covers(trace, paths[b], image);
      AnyOrderLands(before, trace, paths[b], image);
      BlockNotEmpty(opt);
      assert WrittenIn(trace, paths[b], 0);
      var i :| 0 <= i < |trace| && Writes(trace[i], paths[b], 0);
      WrittenExists(before, trace, i);
    }
  }

  lemma BlockNotEmpty(opt: Options)
    requires opt.Valid()
    ensures BlockBytes(opt) > 0
  {
    TimesMonotone(1, opt.shards, opt.slotBytes);
    TimesNext(0, opt.slotBytes);
  }

  /** Whatever pieces a trace has, files outside `paths` stay as they were. */
  lemma {:induction false} FitsOutside(before: Files, trace: seq<Op>, paths: seq<string>, data: seq<byte>, opt: Options)
    requires Setting(paths, data, opt) && AllFit(trace, paths, data, opt)
    ensures SameOutside(before, Apply(before, trace), paths)
    decreases |trace|
  {
    if trace != [] {
      var last := |trace| - 1;
      FitsOutside(before, trace[..last], paths, data, opt);
      assert Fits(trace[last], paths, data, opt);
      OutsideStep(before, Apply(before, trace[..last]), trace[last], paths);
    }
  }

  /** A complete dump has one possible outcome: engines that touch nothing else leave the same disk. */
  lemma OneOutcome(before: Files, a: Files, b: Files, paths: seq<string>, data: seq<byte>, opt: Options)
    requires Setting(paths, data, opt)
    requires Dumped(before, a, paths, data, opt) && SameOutside(before, a, paths)
    requires Dumped(before, b, paths, data, opt) && SameOutside(before, b, paths)
    ensures a == b
  {
    forall p: string
      ensures p in a <==> p in b
      ensures p in a ==> a[p] == b[p]
    {
      if p in paths {
        var i :| 0 <= i < |paths| && paths[i] == p;
        assert DumpedTo(before, a, paths[i], BlockOf(data, i, opt));
        assert DumpedTo(before, b, paths[i], BlockOf(data, i, opt));
      } else {
        assert SameAt(before, a, p) && SameAt(before, b, p);
      }
    }
  }

  /** Buffers that are equal block by block are equal. */
  lemma BlocksDetermine(x: seq<byte>, y: seq<byte>, opt: Options)
    requires opt.Valid() && |x| == |y| == opt.Bytes()
    requires forall b :: 0 <= b < opt.blocks ==> BlockOf(x, b, opt) == BlockOf(y, b, opt)
    ensures x == y
  {
    BlockNotEmpty(opt);
    BytesAreBlocks(opt);
    forall p | 0 <= p < |x|
      ensures x[p] == y[p]
    {
      var b, k := Div(p, BlockBytes(opt)), Mod(p, BlockBytes(opt));
      DivBelow(p, opt.blocks, BlockBytes(opt));
      DivModExact(p, BlockBytes(opt));
      TimesIsProduct(b, BlockBytes(opt));
      BlockInside(b, opt);
      assert BlockOf(x, b, opt)[k] == x[p] && BlockOf(y, b, opt)[k] == y[p];
    }
  }

  /** A request is complete once its whole write is in the trace. */
  ghost predicate Complete(i: nat, trace: seq<Op>, paths: seq<string>, data: seq<byte>, opt: Options)
    requires Setting(paths, data, opt) && i < opt.Slots()
  {
    RequestPlaced(i, opt);
    WriteOf(Request(i, opt), opt.slotBytes, paths, data) in trace
  }

  /** If every request has completed, in whatever order, every byte has been written. */
  lemma CompleteCovers(trace: seq<Op>, paths: seq<string>, data: seq<byte>, opt: Options)
    requires Setting(paths, data, opt)
    requires forall i :: 0 <= i < opt.Slots() ==> Complete(i, trace, paths, data, opt)
    ensures AllWritten(trace, paths, opt)
  {
    forall b, k | 0 <= b < opt.blocks && 0 <= k < BlockBytes(opt)
      ensures WrittenIn(trace, paths[b], k)
    {
      var i := RequestOf(b, k, opt);
      RequestsPartition(b, k, i, opt);
      assert Complete(i, trace, paths, data, opt);
      RequestPlaced(i, opt);
      var op := WriteOf(Request(i, opt), opt.slotBytes, paths, data);
      var j :| 0 <= j < |trace| && trace[j] == op;
      assert Writes(trace[j], paths[b], k);
    }
  }

  /** The asynchronous dump: for every completion order of the requests, the files are the images. */
  lemma AnyCompletionOrder(before: Files, order: seq<nat>, paths: seq<string>, data: seq<byte>, opt: Options)
    requires Setting(paths, data, opt)
    requires forall j :: 0 <= j < |order| ==> order[j] < opt.Slots()
    requires forall i :: 0 <= i < opt.Slots() ==> i in order
    ensures Dumped(before, Apply(before, Trace(order, paths, data, opt)), paths, data, opt)
  {
    var trace := Trace(order, paths, data, opt);
    forall j | 0 <= j < |trace|
      ensures Fits(trace[j], paths, data, opt)
    {
      RequestPlaced(order[j], opt);
      PlacedFits(Request(order[j], opt), opt.slotBytes, paths, data, opt);
    }
    forall i | 0 <= i < opt.Slots()
      ensures Complete(i, trace, paths, data, opt)
    {
      assert i in order;
      var j :| 0 <= j < |order| && order[j] == i;
      assert trace[j] in trace;
    }
    CompleteCovers(trace, paths, data, opt);
    CompleteDump(before, trace, paths, data, opt);
  }

  /** The writes of the requests in the order in which they complete. */
  ghost function Trace(order: seq<nat>, paths: seq<string>, data: seq<byte>, opt: Options): (trace: seq<Op>)
    requires Setting(paths, data, opt)
    requires forall j :: 0 <= j < |order| ==> order[j] < opt.Slots()
    ensures |trace| == |order|
  {
    seq(|order|, j requires 0 <= j < |order| =>
      RequestPlaced(order[j], opt);
      WriteOf(Request(order[j], opt), opt.slotBytes, paths, data))
  }

  /* ---- what a dump in progress may do to the disk ---- */

  /** Every content the disk had since the start differs from the start only on `paths`. */
  ghost predicate Confined(start: Files, seen0: set<Files>, seen: set<Files>, paths: seq<string>) {
    forall s :: s in seen ==> s in seen0 || SameOutside(start, s, paths)
  }

  ghost predicate Dumping(start: Files, seen0: set<Files>, now: Files, seen: set<Files>, trace: seq<Op>,
                          paths: seq<string>, data: seq<byte>, opt: Options)
    requires Setting(paths, data, opt)
  {
    && now == Apply(start, trace)
    && AllFit(trace, paths, data, opt)
    && SameOutside(start, now, paths)
    && Confined(start, seen0, seen, paths)
  }

  lemma OutsideStep(start: Files, now: Files, op: Op, paths: seq<string>)
    requires SameOutside(start, now, paths) && op.path in paths
    ensures SameOutside(start, Step(now, op), paths)
  {
    forall p: string | p !in paths
      ensures SameAt(start, Step(now, op), p)
    {
      assert SameAt(start, now, p);
    }
  }

  lemma DumpingStep(start: Files, seen0: set<Files>, now: Files, seen: set<Files>, trace: seq<Op>, op: Op,
                    paths: seq<string>, data: seq<byte>, opt: Options)
    requires Setting(paths, data, opt) && Dumping(start, seen0, now, seen, trace, paths, data, opt)
    requires Fits(op, paths, data, opt)
    ensures Dumping(start, seen0, Step(now, op), seen + {Step(now, op)}, trace + [op], paths, data, opt)
  {
    OutsideStep(start, now, op, paths);
    assert (trace + [op])[..|trace|] == trace;
  }

  ghost predicate FileWritten(trace: seq<Op>, path: string, n: nat) {
    forall k :: 0 <= k < n ==> WrittenIn(trace, path, k)
  }

  lemma FileWrittenGrows(trace: seq<Op>, more: seq<Op>, path: string, n: nat)
    requires trace <= more && FileWritten(trace, path, n)
    ensures FileWritten(more, path, n)
  {
    forall k | 0 <= k < n
      ensures WrittenIn(more, path, k)
    {
      assert WrittenIn(trace, path, k);
      var i :| 0 <= i < |trace| && Writes(trace[i], path, k);
      assert Writes(more[i], path, k);
    }
  }

  lemma FileWrittenNext(trace: seq<Op>, op: Op, n: nat)
    requires op.Write? && op.offset <= n && FileWritten(trace, op.path, n)
    ensures FileWritten(trace + [op], op.path, op.offset + |op.data|)
  {
    var more := trace + [op];
    FileWrittenGrows(trace, more, op.path, n);
    forall k | 0 <= k < op.offset + |op.data|
      ensures WrittenIn(more, op.path, k)
    {
      if k < n {
        assert WrittenIn(more, op.path, k);
      } else {
        assert Writes(more[|trace|], op.path, k);
      }
    }
  }

  ghost predicate BlocksWritten(trace: seq<Op>, paths: seq<string>, n: nat, opt: Options)
    requires n <= |paths|
  {
    forall b :: 0 <= b < n ==> FileWritten(trace, paths[b], BlockBytes(opt))
  }

  lemma BlocksWrittenGrow(trace: seq<Op>, more: seq<Op>, paths: seq<string>, n: nat, opt: Options)
    requires n <= |paths| && trace <= more && BlocksWritten(trace, paths, n, opt)
    ensures BlocksWritten(more, paths, n, opt)
  {
    forall b | 0 <= b < n
      ensures FileWritten(more, paths[b], BlockBytes(opt))
    {
      FileWrittenGrows(trace, more, paths[b], BlockBytes(opt));
    }
  }

  /** A transfer of part of a slot. */
  function Part(io: Io, pos: nat, len: nat): Io {
    Io(io.block, io.offset + pos, io.pos + pos, len)
  }

  /** The transfer of a whole slot. */
  function Slot(block: nat, shard: nat, opt: Options): (io: Io)
    requires opt.Valid() && block < opt.blocks && shard < opt.shards
    ensures Placed(io, opt) && io.len == opt.slotBytes && io.pos + io.len <= opt.Bytes()
  {
    var offset := Times(shard, opt.slotBytes);
    TimesMonotone(shard + 1, opt.shards, opt.slotBytes);
    TimesNext(shard, opt.slotBytes);
    BlockInside(block, opt);
    Io(block, offset, Times(block, BlockBytes(opt)) + offset, opt.slotBytes)
  }

  /** The effect of one write call, successful, short or failed. */
  lemma Issued(start: Files, seen0: set<Files>, now: Files, seen: set<Files>, trace: seq<Op>, io: Io, n: int,
               paths: seq<string>, data: seq<byte>, opt: Options)
    requires Setting(paths, data, opt) && Dumping(start, seen0, now, seen, trace, paths, data, opt)
    requires Placed(io, opt) && io.pos + io.len <= |data| && n <= io.len
    ensures n < 0 ==> Dumping(start, seen0, now, seen + {now}, trace, paths, data, opt)
    ensures n >= 0 ==>
      var op := WriteOf(io, n, paths, data);
      && op == Write(paths[io.block], io.offset, data[io.pos..io.pos + io.len][..n])
      && Dumping(start, seen0, Step(now, op), seen + {Step(now, op)}, trace + [op], paths, data, opt)
  {
    if n >= 0 {
      SliceOfSlice(data, io.pos, io.pos + io.len, 0, n);
      PlacedFits(io, n, paths, data, opt);
      DumpingStep(start, seen0, now, seen, trace, WriteOf(io, n, paths, data), paths, data, opt);
    }
  }

  /** One write of either engine: one pwrite, or one IOCB_CMD_PWRITE request as the kernel carries it out. */
  method WritePart(disk: Disk, fd: nat, io: Io, opt: Options, paths: seq<string>, buffer: array<byte>,
                   ghost start: Files, ghost seen0: set<Files>, ghost trace0: seq<Op>)
      returns (n: int, ghost trace: seq<Op>)
    requires disk.Valid() && Setting(paths, buffer[..], opt) && Placed(io, opt) && io.pos + io.len <= buffer.Length
    requires fd in disk.open && disk.open[fd] == paths[io.block]
    requires Dumping(start, seen0, disk.files, disk.seen, trace0, paths, buffer[..], opt)
    modifies disk`files, disk`seen, disk`failures
    ensures disk.Valid() && n <= io.len
    ensures disk.failures == old(disk.failures) + if n == io.len then 0 else 1
    ensures Dumping(start, seen0, disk.files, disk.seen, trace, paths, buffer[..], opt)
    ensures trace == if n < 0 then trace0 else trace0 + [WriteOf(io, n, paths, buffer[..])]
  {
    ghost var data, files, seen := buffer[..], disk.files, disk.seen;
    trace := trace0;
    n := disk.PWrite(fd, io.offset, buffer[io.pos..io.pos + io.len]);
    Issued(start, seen0, files, seen, trace0, io, n, paths, data, opt);
    if n >= 0 {
      trace := trace + [WriteOf(io, n, paths, data)];
    }
  }

  /** Opens one of the files for a dump: created when missing, never truncated. */
  method OpenForDump(disk: Disk, path: string, opt: Options, paths: seq<string>, ghost data: seq<byte>,
                     ghost start: Files, ghost seen0: set<Files>, ghost trace0: seq<Op>)
      returns (ok: bool, fd: nat, ghost trace: seq<Op>)
    requires disk.Valid() && Setting(paths, data, opt) && path in paths
    requires Dumping(start, seen0, disk.files, disk.seen, trace0, paths, data, opt)
    modifies disk
    ensures disk.Valid() && trace0 <= trace
    ensures Dumping(start, seen0, disk.files, disk.seen, trace, paths, data, opt)
    ensures ok ==> fd !in old(disk.open) && disk.open == old(disk.open)[fd := path]
    ensures !ok ==> disk.open == old(disk.open)
    ensures disk.failures == old(disk.failures) + if ok then 0 else 1
  {
    ghost var files, seen := disk.files, disk.seen;
    trace := trace0;
    ok, fd := disk.Open(path, true);
    if ok {
      DumpingStep(start, seen0, files, seen, trace, Create(path), paths, data, opt);
      trace := trace + [Create(path)];
    }
  }

  /* ---- loading ---- */

  /** Whatever the files hold, `x` is what they put at each position of the buffer. */
  ghost predicate Agrees(files: Files, paths: seq<string>, x: seq<byte>, opt: Options)
    requires Setting(paths, x, opt)
  {
    forall b :: 0 <= b < opt.blocks ==> AgreesIn(Content(files, paths[b]), BlockOf(x, b, opt))
  }

  ghost predicate AgreesIn(file: seq<byte>, image: seq<byte>) {
    forall k :: 0 <= k < |image| && k < |file| ==> file[k] == image[k]
  }

  /** Round trip: what a dump leaves is what a load, in any order and by either engine, brings back, even
      when the files were longer before. */
  lemma DumpedIsLoaded(before: Files, now: Files, paths: seq<string>, data: seq<byte>, opt: Options)
    requires Setting(paths, data, opt) && Dumped(before, now, paths, data, opt)
    ensures Agrees(now, paths, data, opt)
    ensures forall b :: 0 <= b < opt.blocks ==> |Content(now, paths[b])| >= BlockBytes(opt)
  {
    forall b | 0 <= b < opt.blocks
      ensures AgreesIn(Content(now, paths[b]), BlockOf(data, b, opt))
      ensures |Content(now, paths[b])| >= BlockBytes(opt)
    {
      assert DumpedTo(before, now, paths[b], BlockOf(data, b, opt));
    }
  }

  lemma AgreesAt(files: Files, paths: seq<string>, x: seq<byte>, opt: Options, io: Io, k: nat)
    requires Setting(paths, x, opt) && Agrees(files, paths, x, opt) && Placed(io, opt) && k < io.len
    requires io.offset + k < |Content(files, paths[io.block])|
    ensures io.pos + io.len <= |x| && Content(files, paths[io.block])[io.offset + k] == x[io.pos + k]
  {
    BlockInside(io.block, opt);
    var image := BlockOf(x, io.block, opt);
    assert AgreesIn(Content(files, paths[io.block]), image);
    assert image[io.offset + k] == x[io.pos + k];
  }

  /** memcpy into the buffer. */
  method CopyIn(buffer: array<byte>, pos: nat, data: seq<byte>)
    requires pos + |data| <= buffer.Length
    modifies buffer
    ensures forall p :: 0 <= p < buffer.Length ==>
      buffer[p] == if pos <= p < pos + |data| then data[p - pos] else old(buffer[p])
  {
    for j := 0 to |data|
      invariant forall p :: 0 <= p < buffer.Length ==>
        buffer[p] == if pos <= p < pos + j then data[p - pos] else old(buffer[p])
    {
      buffer[pos + j] := data[j];
    }
  }

  /** Every file has all the bytes of its block. */
  ghost predicate LongEnough(files: Files, paths: seq<string>, opt: Options)
    requires opt.Valid() && |paths| == opt.blocks
  {
    forall b :: 0 <= b < opt.blocks ==> |Content(files, paths[b])| >= BlockBytes(opt)
  }

  /** One read of either engine. It falls short only if the call does, or the file. */
  method ReadPart(disk: Disk, fd: nat, io: Io, opt: Options, paths: seq<string>, buffer: array<byte>,
                  ghost x: seq<byte>)
      returns (n: int)
    requires disk.Valid() && Setting(paths, x, opt) && Placed(io, opt)
    requires buffer.Length == |x| && io.pos + io.len <= buffer.Length
    requires fd in disk.open && disk.open[fd] == paths[io.block]
    requires Agrees(disk.files, paths, x, opt)
    modifies buffer, disk`failures
    ensures n <= io.len && disk.failures >= old(disk.failures)
    ensures n == io.len ==> disk.failures == old(disk.failures)
    ensures disk.failures == old(disk.failures) && LongEnough(disk.files, paths, opt) ==> n == io.len
    ensures forall p :: 0 <= p < buffer.Length ==>
      buffer[p] == if io.pos <= p < io.pos + n then x[p] else old(buffer[p])
  {
    var data;
    n, data := disk.PRead(fd, io.offset, io.len);
    if n > 0 {
      forall k | 0 <= k < n
        ensures data[k] == x[io.pos + k]
      {
        AgreesAt(disk.files, paths, x, opt, io, k);
      }
      CopyIn(buffer, io.pos, data);
    }
  }
}

/** The data side of the asynchronous engine of cache2_hal_aio.cc: one descriptor per request, requests
    that the kernel carries out in any order, and closing on every path. The threads are in AioEngine.dfy;
    what a transfer leaves here is what each of their runs leaves. */
module AioTransfer {
  import opened Machine
  import opened FileTransfer
  import opened Storage
  import opened TextRecord
  import opened Whole
  import opened Engines
  import AioImages

  function Range(fds: seq<nat>): set<nat> { set x | x in fds }

  function PathOf(i: nat, paths: seq<string>, opt: Options): (path: string)
    requires opt.Valid() && i < opt.Slots() && |paths| == opt.blocks
    ensures path in paths
  {
    RequestPlaced(i, opt);
    paths[Request(i, opt).block]
  }

  /** Beyond `base`, exactly the descriptors `fds` are open, one for each of the first requests. */
  ghost predicate Holds(base: map<nat, string>, open: map<nat, string>, fds: seq<nat>,
                        paths: seq<string>, opt: Options)
    requires opt.Valid() && |paths| == opt.blocks
  {
    && |fds| <= opt.Slots()
    && (forall i :: 0 <= i < |fds| ==> fds[i] !in base && fds[i] in open && open[fds[i]] == PathOf(i, paths, opt))
    && (forall i, j :: 0 <= i < j < |fds| ==> fds[i] != fds[j])
    && open - Range(fds) == base
  }

  lemma HoldsMore(base: map<nat, string>, open: map<nat, string>, fds: seq<nat>, fd: nat,
                  paths: seq<string>, opt: Options)
    requires opt.Valid() && |paths| == opt.blocks && |fds| < opt.Slots()
    requires Holds(base, open, fds, paths, opt) && fd !in open
    ensures Holds(base, open[fd := PathOf(|fds|, paths, opt)], fds + [fd], paths, opt)
  {
    var more := open[fd := PathOf(|fds|, paths, opt)];
    assert Range(fds + [fd]) == Range(fds) + {fd};
    assert fd !in base;
    assert more - Range(fds + [fd]) == base;
  }

  /** Opens one descriptor per request, in order, until one fails. */
  method OpenAll(disk: Disk, opt: Options, paths: seq<string>, create: bool, ghost data: seq<byte>)
      returns (ok: bool, fds: seq<nat>, ghost trace: seq<Op>)
    requires disk.Valid() && Setting(paths, data, opt)
    modifies disk
    ensures disk.Valid() && Holds(old(disk.open), disk.open, fds, paths, opt)
    ensures ok ==> |fds| == opt.Slots()
    ensures disk.failures == old(disk.failures) + if ok then 0 else 1
    ensures Dumping(old(disk.files), old(disk.seen), disk.files, disk.seen, trace, paths, data, opt)
    ensures !create ==> disk.files == old(disk.files) && disk.seen == old(disk.seen)
  {
    ghost var base, start, seen0 := disk.open, disk.files, disk.seen;
    fds, trace := [], [];
    while |fds| < opt.Slots()
      invariant disk.Valid() && Holds(base, disk.open, fds, paths, opt)
      invariant Dumping(start, seen0, disk.files, disk.seen, trace, paths, data, opt)
      invariant !create ==> disk.files == start && disk.seen == seen0
      invariant disk.failures == old(disk.failures)
      decreases opt.Slots() - |fds|
    {
      var fd;
      ghost var table := disk.open;
      var path := PathOf(|fds|, paths, opt);
      if create {
        ok, fd, trace := OpenForDump(disk, path, opt, paths, data, start, seen0, trace);
      } else {
        ok, fd := disk.Open(path, false);
      }
      if !ok {
        return;
      }
      HoldsMore(base, table, fds, fd, paths, opt);
      fds := fds + [fd];
    }
    ok := true;
  }

  /** Closes the requests from `first` on; an error may stop it, and then the destructor closes the
      others. Either way every descriptor gets exactly one close. */
  method CloseAll(disk: Disk, fds: seq<nat>, quiet: bool) returns (ok: bool)
    requires disk.Valid()
    requires forall i :: 0 <= i < |fds| ==> fds[i] in disk.open
    requires forall i, j :: 0 <= i < j < |fds| ==> fds[i] != fds[j]
    modifies disk`open, disk`failures
    ensures disk.Valid() && disk.open == old(disk.open) - Range(fds)
    ensures disk.failures >= old(disk.failures)
    ensures !quiet ==> (ok <==> disk.failures == old(disk.failures))
    decreases |fds|, !quiet
  {
    ok := true;
    for i := 0 to |fds|
      invariant disk.Valid() && disk.open == old(disk.open) - Range(fds[..i])
      invariant disk.failures >= old(disk.failures) && (!quiet ==> disk.failures == old(disk.failures))
    {
      var closed := disk.Close(fds[i]);
      assert Range(fds[..i + 1]) == Range(fds[..i]) + {fds[i]};
      if !closed && !quiet {
        var ignored := CloseAll(disk, fds[i + 1..], true);
        assert Range(fds) == Range(fds[..i + 1]) + Range(fds[i + 1..]);
        return false;
      }
    }
    assert fds[..|fds|] == fds;
  }

  function Ids(n: nat): (ids: set<nat>)
    ensures forall i :: i in ids <==> 0 <= i < n
  {
    if n == 0 then {} else Ids(n - 1) + {n - 1}
  }

  /** Requests of a dump complete in any order; one that fails or is short fails the phase, and the phase
      may also be given up (timeout). */
  method AioWrites(disk: Disk, opt: Options, paths: seq<string>, buffer: array<byte>, fds: seq<nat>,
                   ghost base: map<nat, string>, ghost start: Files, ghost seen0: set<Files>, ghost trace0: seq<Op>)
      returns (passed: bool, ghost trace: seq<Op>)
    requires disk.Valid() && Setting(paths, buffer[..], opt)
    requires Holds(base, disk.open, fds, paths, opt) && |fds| == opt.Slots()
    requires Dumping(start, seen0, disk.files, disk.seen, trace0, paths, buffer[..], opt)
    modifies disk`files, disk`seen, disk`failures
    ensures disk.Valid()
    ensures disk.failures >= old(disk.failures) && (passed <==> disk.failures == old(disk.failures))
    ensures Dumping(start, seen0, disk.files, disk.seen, trace, paths, buffer[..], opt)
    ensures passed ==> forall i :: 0 <= i < opt.Slots() ==> Complete(i, trace, paths, buffer[..], opt)
  {
    var pending := Ids(opt.Slots());
    passed, trace := true, trace0;
    while pending != {}
      invariant disk.Valid() && pending <= Ids(opt.Slots())
      invariant disk.failures >= old(disk.failures) && (passed <==> disk.failures == old(disk.failures))
      invariant Dumping(start, seen0, disk.files, disk.seen, trace, paths, buffer[..], opt)
      invariant passed ==> forall i :: 0 <= i < opt.Slots() && i !in pending ==>
        Complete(i, trace, paths, buffer[..], opt)
      decreases |pending|
    {
      var abandoned := disk.GiveUp();
      if abandoned {
        return false, trace;
      }
      var i :| i in pending;
      RequestPlaced(i, opt);
      ghost var earlier := trace;
      var n;
      n, trace := WritePart(disk, fds[i], Request(i, opt), opt, paths, buffer, start, seen0, trace);
      if n != opt.slotBytes {
        passed := false;
      }
      CompleteGrows(earlier, trace, paths, buffer[..], opt);
      pending := pending - {i};
    }
  }

  lemma CompleteGrows(trace: seq<Op>, more: seq<Op>, paths: seq<string>, data: seq<byte>, opt: Options)
    requires Setting(paths, data, opt) && trace <= more
    ensures forall i :: 0 <= i < opt.Slots() && Complete(i, trace, paths, data, opt) ==>
      Complete(i, more, paths, data, opt)
  {
    forall i | 0 <= i < opt.Slots() && Complete(i, trace, paths, data, opt)
      ensures Complete(i, more, paths, data, opt)
    {
      RequestPlaced(i, opt);
      var op := WriteOf(Request(i, opt), opt.slotBytes, paths, data);
      var j :| 0 <= j < |trace| && trace[j] == op;
      assert more[j] == op;
    }
  }

  /** A dump: it passes if and only if no call fails, no request comes up short and the phase is not given up. */
  method AioDump(disk: Disk, opt: Options, paths: seq<string>, buffer: array<byte>) returns (ok: bool)
    requires disk.Valid() && Setting(paths, buffer[..], opt)
    modifies disk
    ensures disk.Valid() && disk.open == old(disk.open)
    ensures disk.failures >= old(disk.failures) && (ok <==> disk.failures == old(disk.failures))
    ensures SameOutside(old(disk.files), disk.files, paths)
    ensures Confined(old(disk.files), old(disk.seen), disk.seen, paths)
    ensures ok ==> Dumped(old(disk.files), disk.files, paths, buffer[..], opt)
    ensures ok ==> AioImages.AsEveryDump(old(disk.files), disk.files, paths, buffer[..], opt)
  {
    ghost var base, start, seen0 := disk.open, disk.files, disk.seen;
    var fds;
    ghost var trace;
    ok, fds, trace := OpenAll(disk, opt, paths, true, buffer[..]);
    if ok {
      ok, trace := AioWrites(disk, opt, paths, buffer, fds, base, start, seen0, trace);
    }
    var closed := CloseAll(disk, fds, !ok);
    if ok {
      CompleteCovers(trace, paths, buffer[..], opt);
      CompleteDump(start, trace, paths, buffer[..], opt);
      AioImages.DumpsAgree(start, disk.files, paths, buffer[..], opt);
    }
    ok := ok && closed;
  }

  ghost predicate SlotRestored(buffer: array<byte>, x: seq<byte>, i: nat, opt: Options)
    requires opt.Valid() && buffer.Length == |x|
    reads buffer
  {
    forall p :: 0 <= p < |x| && Request(i, opt).pos <= p < Request(i, opt).pos + opt.slotBytes ==> buffer[p] == x[p]
  }

  method AioReads(disk: Disk, opt: Options, paths: seq<string>, buffer: array<byte>, fds: seq<nat>,
                  ghost base: map<nat, string>, ghost x: seq<byte>)
      returns (passed: bool)
    requires disk.Valid() && Setting(paths, x, opt) && buffer.Length == |x|
    requires Holds(base, disk.open, fds, paths, opt) && |fds| == opt.Slots()
    requires Agrees(disk.files, paths, x, opt)
    modifies buffer, disk`failures
    ensures disk.failures >= old(disk.failures) && (passed ==> disk.failures == old(disk.failures))
    ensures disk.failures == old(disk.failures) && LongEnough(old(disk.files), paths, opt) ==> passed
    ensures passed ==> buffer[..] == x
  {
    var pending := Ids(opt.Slots());
    passed := true;
    while pending != {}
      invariant pending <= Ids(opt.Slots()) && disk.failures >= old(disk.failures)
      invariant passed ==> disk.failures == old(disk.failures)
      invariant disk.failures == old(disk.failures) && LongEnough(disk.files, paths, opt) ==> passed
      invariant passed ==> forall i :: 0 <= i < opt.Slots() && i !in pending ==> SlotRestored(buffer, x, i, opt)
      decreases |pending|
    {
      var abandoned := disk.GiveUp();
      if abandoned {
        return false;
      }
      var i :| i in pending;
      RequestPlaced(i, opt);
      var n := ReadPart(disk, fds[i], Request(i, opt), opt, paths, buffer, x);
      if n != opt.slotBytes {
        passed := false;
      }
      pending := pending - {i};
    }
    if passed {
      AllRestored(buffer, x, opt);
    }
  }

  lemma AllRestored(buffer: array<byte>, x: seq<byte>, opt: Options)
    requires opt.Valid() && buffer.Length == |x| == opt.Bytes()
    requires forall i :: 0 <= i < opt.Slots() ==> SlotRestored(buffer, x, i, opt)
    ensures buffer[..] == x
  {
    forall p | 0 <= p < |x|
      ensures buffer[p] == x[p]
    {
      var i := Div(p, opt.slotBytes);
      RequestsPartitionBuffer(p, 0, opt);
      RequestsPartitionBuffer(p, i, opt);
      assert SlotRestored(buffer, x, i, opt);
    }
  }

  /** A load: it fails only by such a call, or by a file that is shorter than its block. */
  method AioLoad(disk: Disk, opt: Options, paths: seq<string>, buffer: array<byte>, ghost x: seq<byte>)
      returns (ok: bool)
    requires disk.Valid() && Setting(paths, x, opt) && buffer.Length == |x|
    requires Agrees(disk.files, paths, x, opt)
    modifies disk, buffer
    ensures disk.Valid() && disk.open == old(disk.open) && disk.files == old(disk.files)
    ensures disk.seen == old(disk.seen)
    ensures disk.failures >= old(disk.failures) && (ok ==> disk.failures == old(disk.failures))
    ensures disk.failures == old(disk.failures) && LongEnough(old(disk.files), paths, opt) ==> ok
    ensures ok ==> buffer[..] == x
    ensures AioImages.AsEveryLoad(old(disk.files), x, paths, opt)
  {
    AioImages.LoadsAgree(disk.files, x, paths, opt);
    ghost var base := disk.open;
    var fds;
    ghost var trace;
    ok, fds, trace := OpenAll(disk, opt, paths, false, x);
    if ok {
      ok := AioReads(disk, opt, paths, buffer, fds, base, x);
    }
    var closed := CloseAll(disk, fds, !ok);
    ok := ok && closed;
  }
}

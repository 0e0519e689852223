/** The iterations of cache2_hal_aio.cc: fill, dump to temporary files, rename each, poison, load back,
    compare. What an archived file may hold at any moment. */
module Archive {
  import opened Machine
  import opened Decimal
  import opened FileTransfer
  import opened Storage
  import opened TextRecord
  import opened TextImage
  import opened Engines
  import PsyncEngine
  import AioTransfer

  function Archived(dir: string, b: nat): string { dir + "/block-" + Print(b) }

  function Temporary(dir: string, b: nat): string { Archived(dir, b) + ".tmp" }

  lemma ArchivedDistinct(dir: string, b: nat, c: nat)
    ensures Archived(dir, b) == Archived(dir, c) <==> b == c
    ensures Temporary(dir, b) == Temporary(dir, c) <==> b == c
    ensures Archived(dir, b) != Temporary(dir, c)
  {
    var prefix := dir + "/block-";
    assert Archived(dir, b)[|prefix|..] == Print(b) && Archived(dir, c)[|prefix|..] == Print(c);
    if Print(b) == Print(c) {
      PrintInjective(b, c);
    }
    var t, u := Temporary(dir, b), Temporary(dir, c);
    assert t[..|t| - 4] == Archived(dir, b) && u[..|u| - 4] == Archived(dir, c);
    var a := Archived(dir, b);
    assert a[|a| - 1] == Print(b)[|Print(b)| - 1];
    assert IsDigit(a[|a| - 1]) && u[|u| - 1] == 'p';
  }

  /** The file names of one kind, in block order. */
  method Names(dir: string, opt: Options, temporary: bool) returns (paths: seq<string>)
    requires opt.Valid()
    ensures |paths| == opt.blocks && Distinct(paths)
    ensures forall b :: 0 <= b < opt.blocks ==> paths[b] == if temporary then Temporary(dir, b) else Archived(dir, b)
  {
    paths := [];
    for b := 0 to opt.blocks
      invariant |paths| == b
      invariant forall c :: 0 <= c < b ==> paths[c] == if temporary then Temporary(dir, c) else Archived(dir, c)
    {
      paths := paths + [if temporary then Temporary(dir, b) else Archived(dir, b)];
    }
    forall i, j | 0 <= i < j < |paths|
      ensures paths[i] != paths[j]
    {
      ArchivedDistinct(dir, i, j);
    }
  }

  /** The complete image of one block in one iteration. */
  function BlockImage(iteration: nat, b: nat, opt: Options): seq<byte>
    requires opt.Valid() && iteration < opt.iterations && b < opt.blocks
  {
    BlockOf(Image(iteration, opt), b, opt)
  }

  /** An archived file is absent or the complete image of one iteration before `upto`. */
  ghost predicate Undamaged(files: Files, dir: string, b: nat, opt: Options, upto: nat)
    requires opt.Valid() && upto <= opt.iterations && b < opt.blocks
  {
    Archived(dir, b) in files ==> exists i: nat :: i < upto && files[Archived(dir, b)] == BlockImage(i, b, opt)
  }

  ghost predicate Sound(files: Files, dir: string, opt: Options, upto: nat)
    requires opt.Valid() && upto <= opt.iterations
  {
    forall b :: 0 <= b < opt.blocks ==> Undamaged(files, dir, b, opt, upto)
  }

  ghost predicate NoTemporary(files: Files, dir: string, opt: Options) {
    forall b :: 0 <= b < opt.blocks ==> Temporary(dir, b) !in files
  }

  /** Every archived file holds the image of the given iteration. */
  ghost predicate Holding(files: Files, dir: string, opt: Options, iteration: nat)
    requires opt.Valid() && iteration < opt.iterations
  {
    forall b :: 0 <= b < opt.blocks ==> HoldsImage(files, Archived(dir, b), BlockImage(iteration, b, opt))
  }

  ghost predicate HoldsImage(files: Files, path: string, image: seq<byte>) {
    path in files && files[path] == image
  }

  lemma SoundLater(files: Files, dir: string, opt: Options, upto: nat, later: nat)
    requires opt.Valid() && upto <= later <= opt.iterations && Sound(files, dir, opt, upto)
    ensures Sound(files, dir, opt, later)
  {
    forall b | 0 <= b < opt.blocks
      ensures Undamaged(files, dir, b, opt, later)
    {
      assert Undamaged(files, dir, b, opt, upto);
    }
  }

  /** What happens to the temporary files does not touch the archived ones. */
  lemma SoundOutside(before: Files, now: Files, dir: string, opt: Options, upto: nat, temporary: seq<string>)
    requires opt.Valid() && upto <= opt.iterations && Sound(before, dir, opt, upto)
    requires |temporary| == opt.blocks && forall b :: 0 <= b < opt.blocks ==> temporary[b] == Temporary(dir, b)
    requires SameOutside(before, now, temporary)
    ensures Sound(now, dir, opt, upto)
  {
    forall b | 0 <= b < opt.blocks
      ensures Undamaged(now, dir, b, opt, upto)
    {
      var p := Archived(dir, b);
      forall c | 0 <= c < opt.blocks
        ensures temporary[c] != p
      {
        ArchivedDistinct(dir, b, c);
      }
      assert SameAt(before, now, p);
      assert Undamaged(before, dir, b, opt, upto);
    }
  }

  datatype Engine = Aio | Psync(bytes: nat)
  {
    predicate Valid(opt: Options) { Psync? ==> PsyncEngine.TensorOk(bytes, opt) }
  }

  /** `Transfer` for a dump. */
  method Dump(disk: Disk, engine: Engine, opt: Options, paths: seq<string>, buffer: array<byte>) returns (ok: bool)
    requires disk.Valid() && engine.Valid(opt) && Setting(paths, buffer[..], opt)
    modifies disk
    ensures disk.Valid() && disk.open == old(disk.open)
    ensures disk.failures >= old(disk.failures) && (ok <==> disk.failures == old(disk.failures))
    ensures SameOutside(old(disk.files), disk.files, paths)
    ensures Confined(old(disk.files), old(disk.seen), disk.seen, paths)
    ensures ok ==> Dumped(old(disk.files), disk.files, paths, buffer[..], opt)
  {
    if engine.Aio? {
      ok := AioTransfer.AioDump(disk, opt, paths, buffer);
    } else {
      ok := PsyncEngine.PsyncDump(disk, opt, engine.bytes, paths, buffer);
    }
  }

  /** `Transfer` for a load. */
  method Load(disk: Disk, engine: Engine, opt: Options, paths: seq<string>, buffer: array<byte>, ghost x: seq<byte>)
      returns (ok: bool)
    requires disk.Valid() && engine.Valid(opt) && Setting(paths, x, opt) && buffer.Length == |x|
    requires Agrees(disk.files, paths, x, opt)
    modifies disk, buffer
    ensures disk.Valid() && disk.open == old(disk.open) && disk.files == old(disk.files)
    ensures disk.seen == old(disk.seen)
    ensures disk.failures >= old(disk.failures) && (ok ==> disk.failures == old(disk.failures))
    ensures disk.failures == old(disk.failures) && LongEnough(old(disk.files), paths, opt) ==> ok
    ensures ok ==> buffer[..] == x
  {
    if engine.Aio? {
      ok := AioTransfer.AioLoad(disk, opt, paths, buffer, x);
    } else {
      ok := PsyncEngine.PsyncLoad(disk, opt, engine.bytes, paths, buffer, x);
    }
  }

  datatype Outcome = Pass | IoError | WrongSize | Mismatches

  /** Between dump and load: which of the blocks below `done` have been renamed. */
  ghost predicate Committing(files: Files, dir: string, opt: Options, iteration: nat, done: nat)
    requires opt.Valid() && iteration < opt.iterations
  {
    forall b :: 0 <= b < opt.blocks ==>
      && HoldsImage(files, if b < done then Archived(dir, b) else Temporary(dir, b), BlockImage(iteration, b, opt))
      && (b < done ==> Temporary(dir, b) !in files)
  }

  lemma CommitStep(files: Files, now: Files, dir: string, opt: Options, iteration: nat, b: nat)
    requires opt.Valid() && iteration < opt.iterations && b < opt.blocks
    requires Committing(files, dir, opt, iteration, b) && Sound(files, dir, opt, iteration + 1)
    requires now == (files - {Temporary(dir, b)})[Archived(dir, b) := files[Temporary(dir, b)]]
    ensures Committing(now, dir, opt, iteration, b + 1) && Sound(now, dir, opt, iteration + 1)
    ensures Archived(dir, b) in now && |now[Archived(dir, b)]| == BlockBytes(opt)
  {
    forall c | 0 <= c < opt.blocks
      ensures HoldsImage(now, if c < b + 1 then Archived(dir, c) else Temporary(dir, c), BlockImage(iteration, c, opt))
      ensures c < b + 1 ==> Temporary(dir, c) !in now
      ensures Undamaged(now, dir, c, opt, iteration + 1)
    {
      ArchivedDistinct(dir, b, c);
      ArchivedDistinct(dir, c, b);
      assert Undamaged(files, dir, c, opt, iteration + 1);
      assert HoldsImage(files, if c < b then Archived(dir, c) else Temporary(dir, c), BlockImage(iteration, c, opt));
      if c == b {
        assert now[Archived(dir, c)] == BlockImage(iteration, c, opt);
      }
    }
  }

  /** After a dump into absent temporary files nothing is committed yet and every image is there. */
  lemma DumpedFresh(before: Files, now: Files, dir: string, opt: Options, iteration: nat, temporary: seq<string>)
    requires opt.Valid() && iteration < opt.iterations && NoTemporary(before, dir, opt)
    requires Setting(temporary, Image(iteration, opt), opt)
    requires forall b :: 0 <= b < opt.blocks ==> temporary[b] == Temporary(dir, b)
    requires Dumped(before, now, temporary, Image(iteration, opt), opt)
    ensures Committing(now, dir, opt, iteration, 0)
  {
    forall b | 0 <= b < opt.blocks
      ensures HoldsImage(now, Temporary(dir, b), BlockImage(iteration, b, opt))
    {
      assert Temporary(dir, b) !in before;
      assert DumpedTo(before, now, temporary[b], BlockOf(Image(iteration, opt), b, opt));
      ExactIffNotLonger([], BlockImage(iteration, b, opt));
    }
  }

  lemma HoldingAgrees(files: Files, dir: string, opt: Options, iteration: nat, archived: seq<string>)
    requires opt.Valid() && iteration < opt.iterations && Setting(archived, Image(iteration, opt), opt)
    requires forall b :: 0 <= b < opt.blocks ==> archived[b] == Archived(dir, b)
    requires Committing(files, dir, opt, iteration, opt.blocks)
    ensures Holding(files, dir, opt, iteration) && NoTemporary(files, dir, opt)
    ensures Agrees(files, archived, Image(iteration, opt), opt) && LongEnough(files, archived, opt)
  {
    forall b | 0 <= b < opt.blocks
      ensures HoldsImage(files, Archived(dir, b), BlockImage(iteration, b, opt))
      ensures Temporary(dir, b) !in files
      ensures AgreesIn(Content(files, archived[b]), BlockOf(Image(iteration, opt), b, opt))
      ensures |Content(files, archived[b])| >= BlockBytes(opt)
    {
    }
  }

  /** The images of the blocks below `n` have been flushed, under the temporary names. */
  ghost predicate Flushed(durable: Files, dir: string, opt: Options, iteration: nat, n: nat)
    requires opt.Valid() && iteration < opt.iterations && n <= opt.blocks
  {
    forall b :: 0 <= b < n ==> HoldsImage(durable, Temporary(dir, b), BlockImage(iteration, b, opt))
  }

  lemma FlushedMore(durable: Files, dir: string, opt: Options, iteration: nat, b: nat)
    requires opt.Valid() && iteration < opt.iterations && b < opt.blocks && Flushed(durable, dir, opt, iteration, b)
    ensures Flushed(durable[Temporary(dir, b) := BlockImage(iteration, b, opt)], dir, opt, iteration, b + 1)
  {
    var more := durable[Temporary(dir, b) := BlockImage(iteration, b, opt)];
    forall c | 0 <= c < b + 1
      ensures HoldsImage(more, Temporary(dir, c), BlockImage(iteration, c, opt))
    {
      ArchivedDistinct(dir, b, c);
      assert c < b ==> HoldsImage(durable, Temporary(dir, c), BlockImage(iteration, c, opt));
    }
  }

  /** fdatasync of one temporary file; its descriptor is closed on both paths. */
  method SyncFile(disk: Disk, path: string) returns (ok: bool)
    requires disk.Valid()
    modifies disk
    ensures disk.Valid() && disk.open == old(disk.open) && disk.files == old(disk.files) && disk.seen == old(disk.seen)
    ensures disk.failures >= old(disk.failures)
    ensures ok <==> disk.failures == old(disk.failures)
    ensures ok ==> path in disk.files && disk.durable == old(disk.durable)[path := disk.files[path]]
  {
    var fd;
    ok, fd := disk.Open(path, false);
    if !ok {
      return;
    }
    var synced := disk.Sync(fd);
    var closed := disk.Close(fd);
    ok := synced && closed;
  }

  /** Renames every temporary file to its archived name and checks the size. With `sync`, and only then, each
      file is flushed first, with its whole image. */
  method Commit(disk: Disk, dir: string, opt: Options, sync: bool, temporary: seq<string>, archived: seq<string>,
                iteration: nat)
      returns (r: Outcome)
    requires disk.Valid() && opt.Valid() && iteration < opt.iterations
    requires |temporary| == |archived| == opt.blocks
    requires forall b :: 0 <= b < opt.blocks ==> temporary[b] == Temporary(dir, b) && archived[b] == Archived(dir, b)
    requires Committing(disk.files, dir, opt, iteration, 0) && Sound(disk.files, dir, opt, iteration + 1)
    modifies disk
    ensures disk.Valid() && disk.open == old(disk.open)
    ensures r.Pass? || r.IoError?
    ensures disk.failures >= old(disk.failures) && (r.Pass? <==> disk.failures == old(disk.failures))
    ensures forall s :: s in disk.seen ==> s in old(disk.seen) || Sound(s, dir, opt, iteration + 1)
    ensures Sound(disk.files, dir, opt, iteration + 1)
    ensures r.Pass? ==> Committing(disk.files, dir, opt, iteration, opt.blocks)
    ensures sync && r.Pass? ==> Flushed(disk.durable, dir, opt, iteration, opt.blocks)
    ensures !sync ==> disk.durable == old(disk.durable)
  {
    for b := 0 to opt.blocks
      invariant disk.Valid() && disk.open == old(disk.open) && disk.failures == old(disk.failures)
      invariant Committing(disk.files, dir, opt, iteration, b) && Sound(disk.files, dir, opt, iteration + 1)
      invariant forall s :: s in disk.seen ==> s in old(disk.seen) || Sound(s, dir, opt, iteration + 1)
      invariant if sync then Flushed(disk.durable, dir, opt, iteration, b) else disk.durable == old(disk.durable)
    {
      if sync {
        FlushedMore(disk.durable, dir, opt, iteration, b);
        var synced := SyncFile(disk, temporary[b]);
        if !synced {
          return IoError;
        }
      }
      ghost var files := disk.files;
      ArchivedDistinct(dir, b, b);
      var renamed := disk.Rename(temporary[b], archived[b]);
      if !renamed {
        return IoError;
      }
      CommitStep(files, disk.files, dir, opt, iteration, b);
      var known, size := disk.Size(archived[b]);
      if !known {
        return IoError;
      }
      if size != BlockBytes(opt) {
        return WrongSize;
      }
    }
    r := Pass;
  }

  /** memset. */
  method Poison(buffer: array<byte>)
    modifies buffer
    ensures forall k :: 0 <= k < buffer.Length ==> buffer[k] == 0xff
  {
    for i := 0 to buffer.Length
      invariant forall k :: 0 <= k < i ==> buffer[k] == 0xff
    {
      buffer[i] := 0xff;
    }
  }

  /** The second half of an iteration, for any content of the archived files: `x` is what they put at
      each position of the buffer. Passing means that it is the image; a mismatch, that it is not. The
      load goes over nothing but poison. */
  method LoadAndCheck(disk: Disk, engine: Engine, opt: Options, archived: seq<string>, buffer: array<byte>,
                      iteration: nat, ghost x: seq<byte>)
      returns (r: Outcome, ghost loadedOver: seq<byte>)
    requires disk.Valid() && engine.Valid(opt) && Setting(archived, x, opt) && buffer.Length == |x|
    requires iteration < opt.iterations && Agrees(disk.files, archived, x, opt)
    modifies disk, buffer
    ensures disk.Valid() && disk.open == old(disk.open) && disk.files == old(disk.files)
    ensures disk.seen == old(disk.seen)
    ensures r.Pass? ==> x == Image(iteration, opt) == buffer[..]
    ensures r.Mismatches? ==> x != Image(iteration, opt)
    ensures |loadedOver| == buffer.Length && forall k :: 0 <= k < |loadedOver| ==> loadedOver[k] == 0xff
    ensures !r.WrongSize?
    ensures disk.failures >= old(disk.failures) && (!r.IoError? ==> disk.failures == old(disk.failures))
    ensures disk.failures == old(disk.failures) && LongEnough(old(disk.files), archived, opt) ==> !r.IoError?
    ensures r.IoError? || (r.Pass? <==> x == Image(iteration, opt))
  {
    Poison(buffer);
    loadedOver := buffer[..];
    var ok := Load(disk, engine, opt, archived, buffer, x);
    if !ok {
      return IoError, loadedOver;
    }
    var mismatches, reported := CheckBuffer(buffer, iteration, opt);
    r := if mismatches != 0 then Mismatches else Pass;
  }

  /** One iteration. The files may fail it; the comparison never does. */
  method Iterate(disk: Disk, dir: string, engine: Engine, opt: Options, sync: bool, buffer: array<byte>, iteration: nat)
      returns (r: Outcome)
    requires disk.Valid() && opt.Valid() && engine.Valid(opt) && iteration < opt.iterations
    requires buffer.Length == opt.Bytes()
    requires NoTemporary(disk.files, dir, opt) && Sound(disk.files, dir, opt, iteration)
    modifies disk, buffer
    ensures disk.Valid() && disk.open == old(disk.open)
    ensures r.Pass? || r.IoError?
    ensures disk.failures >= old(disk.failures) && (r.Pass? <==> disk.failures == old(disk.failures))
    ensures forall s :: s in disk.seen ==> s in old(disk.seen) || Sound(s, dir, opt, iteration + 1)
    ensures r.Pass? ==> NoTemporary(disk.files, dir, opt) && Holding(disk.files, dir, opt, iteration)
    ensures r.Pass? ==> buffer[..] == Image(iteration, opt)
    ensures Sound(disk.files, dir, opt, iteration + 1)
  {
    FillBuffer(buffer, iteration, opt);
    var temporary := Names(dir, opt, true);
    var archived := Names(dir, opt, false);
    ghost var image, before, seen0 := Image(iteration, opt), disk.files, disk.seen;
    SoundLater(before, dir, opt, iteration, iteration + 1);
    var ok := Dump(disk, engine, opt, temporary, buffer);
    SoundOutside(before, disk.files, dir, opt, iteration + 1, temporary);
    ConfinedSound(before, seen0, disk.seen, dir, opt, iteration + 1, temporary);
    if !ok {
      return IoError;
    }
    DumpedFresh(before, disk.files, dir, opt, iteration, temporary);
    r := Commit(disk, dir, opt, sync, temporary, archived, iteration);
    if !r.Pass? {
      return;
    }
    HoldingAgrees(disk.files, dir, opt, iteration, archived);
    ghost var loadedOver;
    r, loadedOver := LoadAndCheck(disk, engine, opt, archived, buffer, iteration, image);
  }

  lemma ConfinedSound(before: Files, seen0: set<Files>, seen: set<Files>, dir: string, opt: Options, upto: nat,
                      temporary: seq<string>)
    requires opt.Valid() && upto <= opt.iterations && Sound(before, dir, opt, upto)
    requires |temporary| == opt.blocks && forall b :: 0 <= b < opt.blocks ==> temporary[b] == Temporary(dir, b)
    requires Confined(before, seen0, seen, temporary)
    ensures forall s :: s in seen ==> s in seen0 || Sound(s, dir, opt, upto)
  {
    forall s | s in seen && s !in seen0
      ensures Sound(s, dir, opt, upto)
    {
      SoundOutside(before, s, dir, opt, upto, temporary);
    }
  }

  /** All iterations, in a fresh directory. At every moment of every run, failing or not, each archived
      file is absent or one complete image; a run that passes leaves the images of the last iteration
      (or nothing, if the files are not kept). */
  method Run(disk: Disk, dir: string, engine: Engine, opt: Options, sync: bool, keepFiles: bool, buffer: array<byte>)
      returns (r: Outcome)
    requires disk.Valid() && opt.Valid() && opt.iterations > 0 && engine.Valid(opt)
    requires buffer.Length == opt.Bytes()
    requires forall b: nat :: Archived(dir, b) !in disk.files && Temporary(dir, b) !in disk.files
    modifies disk, buffer
    ensures disk.Valid() && disk.open == old(disk.open)
    ensures r.Pass? || r.IoError?
    ensures disk.failures >= old(disk.failures) && (r.Pass? <==> disk.failures == old(disk.failures))
    ensures forall s :: s in disk.seen ==> s in old(disk.seen) || Sound(s, dir, opt, opt.iterations)
    ensures r.Pass? ==> NoTemporary(disk.files, dir, opt)
    ensures r.Pass? && keepFiles ==> Holding(disk.files, dir, opt, opt.iterations - 1)
    ensures r.Pass? && !keepFiles ==> forall b :: 0 <= b < opt.blocks ==> Archived(dir, b) !in disk.files
  {
    for iteration := 0 to opt.iterations
      invariant disk.Valid() && disk.open == old(disk.open) && disk.failures == old(disk.failures)
      invariant NoTemporary(disk.files, dir, opt) && Sound(disk.files, dir, opt, iteration)
      invariant forall s :: s in disk.seen ==> s in old(disk.seen) || Sound(s, dir, opt, opt.iterations)
      invariant iteration > 0 ==> Holding(disk.files, dir, opt, iteration - 1)
    {
      ghost var seen0 := disk.seen;
      r := Iterate(disk, dir, engine, opt, sync, buffer, iteration);
      SeenLater(seen0, disk.seen, dir, opt, iteration + 1);
      if !r.Pass? {
        return;
      }
    }
    r := Pass;
    if !keepFiles {
      r := Remove(disk, dir, opt);
    }
  }

  lemma SeenLater(seen0: set<Files>, seen: set<Files>, dir: string, opt: Options, upto: nat)
    requires opt.Valid() && upto <= opt.iterations
    requires forall s :: s in seen ==> s in seen0 || Sound(s, dir, opt, upto)
    ensures forall s :: s in seen ==> s in seen0 || Sound(s, dir, opt, opt.iterations)
  {
    forall s | s in seen && s !in seen0
      ensures Sound(s, dir, opt, opt.iterations)
    {
      SoundLater(s, dir, opt, upto, opt.iterations);
    }
  }

  method Remove(disk: Disk, dir: string, opt: Options) returns (r: Outcome)
    requires disk.Valid() && opt.Valid()
    requires NoTemporary(disk.files, dir, opt) && Sound(disk.files, dir, opt, opt.iterations)
    modifies disk
    ensures disk.Valid() && disk.open == old(disk.open) && (r.Pass? || r.IoError?)
    ensures disk.failures >= old(disk.failures) && (r.Pass? <==> disk.failures == old(disk.failures))
    ensures NoTemporary(disk.files, dir, opt)
    ensures forall s :: s in disk.seen ==> s in old(disk.seen) || Sound(s, dir, opt, opt.iterations)
    ensures r.Pass? ==> forall b :: 0 <= b < opt.blocks ==> Archived(dir, b) !in disk.files
  {
    for b := 0 to opt.blocks
      invariant disk.Valid() && disk.open == old(disk.open) && disk.failures == old(disk.failures)
      invariant NoTemporary(disk.files, dir, opt) && Sound(disk.files, dir, opt, opt.iterations)
      invariant forall s :: s in disk.seen ==> s in old(disk.seen) || Sound(s, dir, opt, opt.iterations)
      invariant forall c :: 0 <= c < b ==> Archived(dir, c) !in disk.files
    {
      ghost var files := disk.files;
      var ok := disk.Unlink(Archived(dir, b));
      SoundWithout(files, dir, opt, Archived(dir, b));
      if !ok {
        return IoError;
      }
    }
    r := Pass;
  }

  lemma SoundWithout(files: Files, dir: string, opt: Options, path: string)
    requires opt.Valid() && Sound(files, dir, opt, opt.iterations)
    ensures Sound(files - {path}, dir, opt, opt.iterations)
  {
    forall b | 0 <= b < opt.blocks
      ensures Undamaged(files - {path}, dir, b, opt, opt.iterations)
    {
      assert Undamaged(files, dir, b, opt, opt.iterations);
    }
  }
}

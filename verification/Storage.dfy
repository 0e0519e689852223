/** The file system as cache2_hal_aio.cc uses it. Every call may fail, and reads and writes may be
    short; which ones are is left open. */
module Storage {
  import opened Machine
  import opened FileTransfer

  /** `now` and `before` have the same files outside `paths`. */
  ghost predicate SameOutside(before: Files, now: Files, paths: seq<string>) {
    forall p: string :: p !in paths ==> SameAt(before, now, p)
  }

  predicate SameAt(before: Files, now: Files, p: string) {
    (p in now <==> p in before) && Content(now, p) == Content(before, p)
  }

  /** How many of `length` bytes at `offset` a file has. */
  function Available(file: seq<byte>, offset: nat, length: nat): (n: nat)
    ensures n <= length && (n > 0 ==> offset + n <= |file|)
    ensures offset + length <= |file| ==> n == length
  {
    if |file| <= offset then 0 else if |file| - offset < length then |file| - offset else length
  }

  class Disk {
    var files: Files
    /** Open descriptors and the path each was opened with. */
    var open: map<nat, string>
    var next: nat
    /** Calls that failed or transferred less than there was to transfer; an open of a file that is not
        there is one of them. */
    var failures: nat
    /** Every content the disk has ever had. */
    ghost var seen: set<Files>
    /** What has been flushed, by the name the file had then. */
    ghost var durable: Files

    ghost predicate Valid()
      reads this
    {
      files in seen && forall fd :: fd in open ==> fd < next
    }

    constructor (files: Files)
      ensures Valid() && this.files == files && open == map[] && seen == {files} && failures == 0
      ensures durable == map[]
    {
      this.files := files;
      open := map[];
      next, failures := 0, 0;
      seen, durable := {files}, map[];
    }

    /** open: with O_CREAT a missing file is created empty; an existing one keeps its bytes. */
    method Open(path: string, create: bool) returns (ok: bool, fd: nat)
      requires Valid()
      modifies this
      ensures Valid() && durable == old(durable)
      ensures ok ==> fd !in old(open) && open == old(open)[fd := path]
      ensures ok ==> create || path in old(files)
      ensures ok ==> files == (if create then Step(old(files), Create(path)) else old(files))
      ensures !ok ==> open == old(open) && files == old(files)
      ensures seen == old(seen) + {files}
      ensures failures == old(failures) + if ok then 0 else 1
    {
      ok, fd := *, next;
      ok := ok && (create || path in files);
      if !ok {
        failures := failures + 1;
        return;
      }
      open := open[fd := path];
      next := next + 1;
      if create {
        files := Step(files, Create(path));
      }
      seen := seen + {files};
    }

    /** close: the descriptor is gone even if an error is reported. */
    method Close(fd: nat) returns (ok: bool)
      requires Valid() && fd in open
      modifies this`open, this`failures
      ensures Valid() && open == old(open) - {fd}
      ensures failures == old(failures) + if ok then 0 else 1
    {
      ok := *;
      open := open - {fd};
      failures := failures + if ok then 0 else 1;
    }

    /** fdatasync. */
    method Sync(fd: nat) returns (ok: bool)
      requires fd in open
      modifies this`failures, this`durable
      ensures failures == old(failures) + if ok then 0 else 1
      ensures durable == if ok then old(durable)[open[fd] := Content(files, open[fd])] else old(durable)
    {
      ok := *;
      if ok {
        durable := durable[open[fd] := Content(files, open[fd])];
      }
      failures := failures + if ok then 0 else 1;
    }

    /** Whether an asynchronous phase is given up: its deadline has passed, or one of the calls that submit
        requests or collect their completions has failed. */
    method GiveUp() returns (yes: bool)
      modifies this`failures
      ensures failures == old(failures) + if yes then 1 else 0
    {
      yes := *;
      failures := failures + if yes then 1 else 0;
    }

    /** pwrite, or one completed IOCB_CMD_PWRITE; `n` is negative on error. */
    method PWrite(fd: nat, offset: nat, data: seq<byte>) returns (n: int)
      requires Valid() && fd in open
      modifies this`files, this`seen, this`failures
      ensures Valid() && n <= |data|
      ensures files == if n < 0 then old(files) else Step(old(files), Write(open[fd], offset, data[..n]))
      ensures seen == old(seen) + {files}
      ensures failures == old(failures) + if n == |data| then 0 else 1
    {
      n :| n <= |data|;
      if n >= 0 {
        files := Step(files, Write(open[fd], offset, data[..n]));
      }
      failures := failures + if n == |data| then 0 else 1;
      seen := seen + {files};
    }

    /** pread, or one completed IOCB_CMD_PREAD; `n` is negative on error. */
    method PRead(fd: nat, offset: nat, length: nat) returns (n: int, data: seq<byte>)
      requires Valid() && fd in open
      modifies this`failures
      ensures n <= Available(Content(files, open[fd]), offset, length)
      ensures n >= 0 ==> |data| == n && (n > 0 ==> offset + n <= |Content(files, open[fd])|)
      ensures n >= 0 ==> forall k :: 0 <= k < n ==> data[k] == Content(files, open[fd])[offset + k]
      ensures failures == old(failures) + if n == Available(Content(files, open[fd]), offset, length) then 0 else 1
    {
      var file := Content(files, open[fd]);
      var there := Available(file, offset, length);
      n :| n <= there;
      data := if n > 0 then file[offset..offset + n] else [];
      failures := failures + if n == there then 0 else 1;
    }

    /** rename: atomic; a file that had the new name is replaced. */
    method Rename(from: string, to: string) returns (ok: bool)
      requires Valid() && from != to
      modifies this`files, this`seen, this`failures
      ensures Valid()
      ensures failures == old(failures) + if ok then 0 else 1
      ensures ok ==> from in old(files) && files == (old(files) - {from})[to := old(files)[from]]
      ensures !ok ==> files == old(files)
      ensures seen == old(seen) + {files}
    {
      ok := *;
      ok := ok && from in files;
      if ok {
        var content := files[from];
        files := (files - {from})[to := content];
      } else {
        failures := failures + 1;
      }
      seen := seen + {files};
    }

    /** stat. */
    method Size(path: string) returns (ok: bool, size: nat)
      modifies this`failures
      ensures failures == old(failures) + if ok then 0 else 1
      ensures ok ==> path in files && size == |files[path]|
    {
      ok := *;
      ok := ok && path in files;
      size := if ok then |files[path]| else 0;
      failures := failures + if ok then 0 else 1;
    }

    method Unlink(path: string) returns (ok: bool)
      requires Valid()
      modifies this`files, this`seen, this`failures
      ensures Valid()
      ensures failures == old(failures) + if ok then 0 else 1
      ensures files == if ok then old(files) - {path} else old(files)
      ensures seen == old(seen) + {files}
    {
      ok := *;
      if ok {
        files := files - {path};
      } else {
        failures := failures + 1;
      }
      seen := seen + {files};
    }
  }
}

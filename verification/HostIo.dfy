/** `io_tests` of host_share.cpp: device copies and file transfers through a shared buffer, any of which
    may fail, and what the buffer is left as. */
module HostIo {
  import opened Machine
  import opened AioHelper
  import opened Pattern

  /** What the function needs of the accelerator runtime: one device buffer, one stream, one event.
      `pending` are the copies queued and not known to be finished, oldest first; true is device to host. */
  class Acl {
    var hasDevice: bool
    var hasStream: bool
    var hasEvent: bool
    var device: seq<word>
    var pending: seq<bool>
    /** Calls that failed. */
    var failures: nat

    constructor (words: nat)
      ensures !hasDevice && !hasStream && !hasEvent && pending == [] && |device| == words && failures == 0
    {
      failures := 0;
      hasDevice, hasStream, hasEvent, pending := false, false, false, [];
      device := seq(words, _ => 0);
    }

    /** Any call that only reports how it went. */
    method Call() returns (ok: bool)
      modifies this`failures
      ensures failures == old(failures) + if ok then 0 else 1
    {
      ok := *;
      failures := failures + if ok then 0 else 1;
    }

    /** Device memory, the stream, the event: the first failure throws. */
    method Acquire() returns (ok: bool)
      modifies this`hasDevice, this`hasStream, this`hasEvent, this`failures
      ensures ok ==> hasDevice && hasStream && hasEvent
      ensures failures == old(failures) + if ok then 0 else 1
    {
      hasDevice := Call();
      if !hasDevice {
        return false;
      }
      hasStream := Call();
      if !hasStream {
        return false;
      }
      hasEvent := Call();
      ok := hasEvent;
    }

    method CopyAsync(toHost: bool) returns (ok: bool)
      requires hasStream
      modifies this`pending, this`failures
      ensures pending == if ok then old(pending) + [toHost] else old(pending)
      ensures failures == old(failures) + if ok then 0 else 1
    {
      ok := Call();
      if ok {
        pending := pending + [toHost];
      }
    }

    /** Waits for the queue. Success means that every copy has been made, in order, so that the oldest
        decides the content of both sides; after a failure the host buffer may hold anything. */
    method Synchronize(host: array<word>) returns (ok: bool)
      requires hasStream && |device| == host.Length
      modifies this`pending, this`device, this`failures, host
      ensures failures == old(failures) + if ok then 0 else 1
      ensures |device| == host.Length
      ensures ok ==> pending == []
      ensures old(pending) == [] ==> pending == [] && device == old(device) && host[..] == old(host[..])
      ensures ok && old(pending) != [] ==>
        device == host[..] == if old(pending)[0] then old(device) else old(host[..])
    {
      ok := Call();
      if pending == [] {
        return;
      }
      var toHost := pending[0];
      if ok {
        pending := [];
        if !toHost {
          device := host[..];
        }
      }
      if !ok || toHost {
        Overwrite(host, device);
      }
    }

    /** The destructor: each thing acquired is given back once. */
    method Release(host: array<word>)
      requires |device| == host.Length
      modifies this, host
      ensures failures >= old(failures)
      ensures !hasDevice && !hasStream && !hasEvent
      ensures old(pending) == [] ==> pending == [] && host[..] == old(host[..])
    {
      if hasStream {
        var synced := Synchronize(host);
      }
      hasEvent, hasStream, hasDevice := false, false, false;
    }
  }

  method Overwrite(host: array<word>, data: seq<word>)
    requires |data| == host.Length
    modifies host
    ensures host[..] == data
  {
    for i := 0 to |data|
      invariant forall k :: 0 <= k < i ==> host[k] == data[k]
    {
      host[i] := data[i];
    }
  }

  predicate AllZero(words: seq<word>) { forall k :: 0 <= k < |words| ==> words[k] == 0 }

  /** memset to zero. */
  method Clear(host: array<word>)
    modifies host
    ensures AllZero(host[..])
  {
    for i := 0 to host.Length
      invariant forall k :: 0 <= k < i ==> host[k] == 0
    {
      host[i] := 0;
    }
  }

  /** `count` copies in one direction, then the event. */
  method Backlog(acl: Acl, host: array<word>, toHost: bool, count: nat) returns (ok: bool)
    requires acl.hasStream && acl.pending == [] && acl.device == host[..]
    modifies acl`pending, acl`device, acl`failures, host
    ensures |acl.device| == host.Length
    ensures acl.failures == old(acl.failures) + if ok then 0 else 1
    ensures ok ==> acl.pending == [] && acl.device == host[..] == old(host[..])
  {
    for i := 0 to count
      modifies acl`pending, acl`failures
      invariant acl.failures == old(acl.failures)
      invariant i > 0 ==> acl.pending != [] && acl.pending[0] == toHost
      invariant i == 0 ==> acl.pending == []
    {
      ok := acl.CopyAsync(toHost);
      if !ok {
        return;
      }
    }
    ok := acl.Call();                    // aclrtRecordEvent
    if !ok {
      return;
    }
    ok := acl.Call();                    // aclrtQueryEventStatus
    if !ok {
      return;
    }
    ok := acl.Synchronize(host);
  }

  /** The part under the first `try`: a round trip, then 32 copies each way. `mismatch` says whether a
      check of the data failed; `over` is what the buffer held when the first copy came back. */
  method AclTests(acl: Acl, ptr: array<word>, seed: word) returns (ok: bool, mismatch: bool, ghost over: seq<word>)
    requires !acl.hasStream && acl.pending == [] && |acl.device| == ptr.Length
    modifies acl, ptr
    ensures |acl.device| == ptr.Length
    ensures !acl.hasStream ==> acl.pending == []
    ensures acl.failures >= old(acl.failures) && (ok <==> acl.failures == old(acl.failures))
    ensures ok ==> acl.pending == [] && acl.device == ptr[..] == PatternBlock(seed, ptr.Length)
    ensures ok ==> |over| == ptr.Length && AllZero(over)
    ensures !mismatch
  {
    mismatch, over := false, [];
    ok := acl.Acquire();
    if !ok {
      return;
    }
    Fill(ptr, seed);
    ok := acl.CopyAsync(false);
    if !ok {
      return;
    }
    ok := acl.Synchronize(ptr);
    if !ok {
      return;
    }
    Clear(ptr);
    over := ptr[..];
    ok := acl.CopyAsync(true);
    if !ok {
      return;
    }
    ok := acl.Synchronize(ptr);
    if !ok {
      return;
    }
    var at;
    ok, at := Verify(ptr, seed);
    if !ok {
      return false, true, over;
    }
    ok := Backlog(acl, ptr, false, 32);
    if !ok {
      return;
    }
    ok := Backlog(acl, ptr, true, 32);
    if !ok {
      return;
    }
    ok, at := Verify(ptr, seed);
    mismatch := !ok;
  }

  /** The seed for the data written through the shared buffer. */
  function WriteSeed(seed: word): word {
    XorBoundWord(seed, 0xfedc_ba98_7654_3210);
    Xor(seed, 0xfedc_ba98_7654_3210)
  }

  /** One direction: a file operation on the shared buffer and the check of its data. `over` is what the
      buffer that is checked held before the data were read into it. */
  method Direction(kernel: Kernel, ctx: nat, file: Scratch, control: array<word>, ptr: array<word>, seed: word,
                   write: bool)
      returns (ok: bool, after: nat, mismatch: bool, ghost over: seq<word>)
    requires kernel.Valid() && ctx in kernel.busy && kernel.busy[ctx] == 0 && control != ptr
    requires ptr.Length == control.Length && ptr.Length % N == 0
    requires !write ==> |file.words| >= ptr.Length && file.words[..ptr.Length] == PatternBlock(seed, ptr.Length)
    modifies kernel`busy, kernel`operations, kernel`failures, file, control, ptr
    ensures kernel.Valid() && (after == ctx || after == 0)
    ensures kernel.failures == old(kernel.failures) + if ok then 0 else 1
    ensures ok ==> kernel.operations == old(kernel.operations) + if write then 2 else 1
    ensures ok && write ==>
      |file.words| >= ptr.Length && file.words[..ptr.Length] == ptr[..] == PatternBlock(WriteSeed(seed), ptr.Length)
    ensures ok && !write ==> ptr[..] == PatternBlock(seed, ptr.Length)
    ensures kernel.busy == if after == ctx then old(kernel.busy) else old(kernel.busy) - {ctx}
    ensures after == 0 ==> !ok
    ensures ok ==> |over| == ptr.Length && if write then AllZero(over) else over == PatternBlock(0, ptr.Length)
    ensures !mismatch
  {
    mismatch, over := false, [];
    var expected := if write then WriteSeed(seed) else seed;
    Fill(ptr, if write then WriteSeed(seed) else 0);
    over := ptr[..];
    ok, after := AioOperation(kernel, ctx, file, ptr, write);
    if !ok {
      return;
    }
    if write {
      var synced := kernel.Call();
      if !synced {
        return false, after, false, over;
      }
      Clear(control);
      over := control[..];
      ok, after := AioOperation(kernel, ctx, file, control, false);
      if !ok {
        return;
      }
      var at;
      ok, at := Verify(control, expected);
    } else {
      var at;
      ok, at := Verify(ptr, expected);
    }
    mismatch := !ok;
  }

  /** One file mode: context, control transfers, then both directions through the shared buffer. `over` is
      what the control buffer held before it was first read back. */
  method FileMode(kernel: Kernel, file: Scratch, control: array<word>, ptr: array<word>, seed: word)
      returns (failures: nat, mismatch: bool, ghost over: seq<word>)
    requires kernel.Valid() && control != ptr && ptr.Length == control.Length && ptr.Length % N == 0
    requires control[..] == PatternBlock(seed, control.Length)
    modifies kernel`busy, kernel`next, kernel`operations, kernel`failures, file, control, ptr
    ensures kernel.failures >= old(kernel.failures) && (failures == 0 <==> kernel.failures == old(kernel.failures))
    ensures kernel.Valid() && kernel.busy == old(kernel.busy)
    ensures failures == 0 ==> kernel.operations == old(kernel.operations) + 5
    ensures failures == 0 ==> |over| == control.Length && AllZero(over)
    ensures !mismatch
  {
    failures, mismatch, over := 0, false, [];
    var ret, ctx := kernel.Setup();
    ghost var busy := kernel.busy;
    var ok := ret == 0;
    if ok {
      ok, ctx := AioOperation(kernel, ctx, file, control, true);
    }
    if ok {
      ok := kernel.Call();
    }
    if ok {
      Clear(control);
      over := control[..];
      ok, ctx := AioOperation(kernel, ctx, file, control, false);
    }
    if ok {
      var at;
      ok, at := Verify(control, seed);
      mismatch := !ok;
    }
    var write := 0;
    while ok && write < 2
      invariant kernel.Valid() && write <= 2 && !mismatch
      invariant ret == 0 && ctx != 0 ==> kernel.busy == busy
      invariant ctx == 0 ==> kernel.busy == old(kernel.busy)
      invariant ctx != 0 ==> ctx in kernel.busy && kernel.busy[ctx] == 0 && kernel.busy - {ctx} == old(kernel.busy)
      invariant ok ==> ctx != 0
      invariant ok ==> |over| == control.Length && AllZero(over)
      invariant kernel.failures >= old(kernel.failures)
      invariant ok && failures == 0 <==> kernel.failures == old(kernel.failures)
      invariant ok && failures == 0 ==>
        kernel.operations == old(kernel.operations) + if write == 0 then 2 else if write == 1 then 3 else 5
      invariant ok && write == 0 ==>
        |file.words| >= ptr.Length && file.words[..ptr.Length] == PatternBlock(seed, ptr.Length)
      decreases 2 - write
    {
      var passed;
      ghost var readOver;
      passed, ctx, mismatch, readOver := Direction(kernel, ctx, file, control, ptr, seed, write == 1);
      if !passed {
        failures := failures + 1;
        if ctx == 0 {
          ok := false;
        }
      }
      write := write + 1;
    }
    if !ok {
      failures := failures + 1;
    }
    if ctx != 0 {
      ret := kernel.Destroy(ctx);
    }
  }

  /** One temporary file: created, unlinked at once, used, closed. Failing to unlink it throws. */
  method FileCase(kernel: Kernel, control: array<word>, ptr: array<word>, seed: word)
      returns (thrown: bool, failures: nat, mismatch: bool)
    requires kernel.Valid() && control != ptr && ptr.Length == control.Length && ptr.Length % N == 0
    modifies kernel, control, ptr
    ensures kernel.Valid() && kernel.busy == old(kernel.busy) && kernel.fds == old(kernel.fds)
    ensures kernel.failures >= old(kernel.failures)
    ensures !thrown && failures == 0 <==> kernel.failures == old(kernel.failures)
    ensures !thrown && failures == 0 ==> kernel.operations == old(kernel.operations) + 5
    ensures !mismatch
  {
    mismatch := false;
    Fill(control, seed);
    var created, fd := kernel.Open();
    if !created {
      return false, 1, false;
    }
    var unlinked := kernel.Call();
    thrown := !unlinked;
    if thrown {
      kernel.Close(fd);
      return true, 0, false;
    }
    var file := new Scratch();
    ghost var over;
    failures, mismatch, over := FileMode(kernel, file, control, ptr, seed);
    kernel.Close(fd);
  }

  datatype Mode = Both | Buffered | Direct | NoFiles
  {
    /** The file modes with number below `n`. */
    function Cases(n: nat): nat {
      (if n > 0 && (Both? || Buffered?) then 1 else 0) + (if n > 1 && (Both? || Direct?) then 1 else 0)
    }
  }

  /** The loop over the file modes asked for. */
  method FileCases(kernel: Kernel, control: array<word>, ptr: array<word>, seed: word, mode: Mode)
      returns (thrown: bool, failures: nat, mismatch: bool)
    requires kernel.Valid() && control != ptr && ptr.Length == control.Length && ptr.Length % N == 0
    requires !mode.NoFiles?
    modifies kernel, control, ptr
    ensures kernel.Valid() && kernel.busy == old(kernel.busy) && kernel.fds == old(kernel.fds)
    ensures kernel.failures >= old(kernel.failures)
    ensures !thrown && failures == 0 <==> kernel.failures == old(kernel.failures)
    ensures !thrown && failures == 0 ==> kernel.operations == old(kernel.operations) + 5 * mode.Cases(2)
    ensures !mismatch
  {
    thrown, failures, mismatch := false, 0, false;
    for direct := 0 to 2
      invariant kernel.Valid() && kernel.busy == old(kernel.busy) && kernel.fds == old(kernel.fds)
      invariant kernel.failures >= old(kernel.failures)
      invariant failures == 0 <==> kernel.failures == old(kernel.failures)
      invariant failures == 0 ==> kernel.operations == old(kernel.operations) + 5 * mode.Cases(direct)
      invariant !mismatch && !thrown
    {
      if (mode.Buffered? && direct == 1) || (mode.Direct? && direct == 0) {
        continue;
      }
      var more;
      thrown, more, mismatch := FileCase(kernel, control, ptr, seed);
      failures := failures + more;
      if thrown {
        return;
      }
    }
  }

  /** `io_tests`. Whatever fails, a normal return leaves the buffer filled with the seed, nothing in
      flight, every context given its one destroy attempt and every descriptor closed; no failure is
      reported only after five complete file operations in each mode asked for; and with copies and a
      file system that keep the data, no check of data ever fails. */
  method IoTests(kernel: Kernel, acl: Acl, ptr: array<word>, seed: word, mode: Mode)
      returns (thrown: bool, failures: nat, mismatch: bool)
    requires kernel.Valid() && ptr.Length % N == 0
    requires !acl.hasStream && acl.pending == [] && |acl.device| == ptr.Length
    modifies kernel, acl, ptr
    ensures kernel.Valid() && kernel.busy == old(kernel.busy) && kernel.fds == old(kernel.fds)
    ensures !acl.hasDevice && !acl.hasStream && !acl.hasEvent
    ensures !thrown ==> ptr[..] == PatternBlock(seed, ptr.Length) && acl.pending == []
    ensures !thrown && failures == 0 ==> kernel.operations == old(kernel.operations) + 5 * mode.Cases(2)
    ensures kernel.failures == old(kernel.failures) && acl.failures == old(acl.failures) ==> !thrown && failures == 0
    ensures !thrown && failures == 0 ==> kernel.failures == old(kernel.failures)
    ensures !mismatch
  {
    failures := 0;
    var ok;
    ghost var over;
    ok, mismatch, over := AclTests(acl, ptr, seed);
    if !ok {
      failures := 1;
      if acl.hasStream {
        var synced := acl.Synchronize(ptr);
        if !synced {
          acl.Release(ptr);
          return true, failures, mismatch;
        }
      }
    }
    if mode.NoFiles? {
      Fill(ptr, seed);
      acl.Release(ptr);
      return false, failures, mismatch;
    }
    var obtained := kernel.Call();
    if !obtained {
      acl.Release(ptr);
      return true, failures, mismatch;
    }
    var control := new word[ptr.Length];
    Fill(control, seed);
    var more;
    thrown, more, mismatch := FileCases(kernel, control, ptr, seed, mode);
    failures := failures + more;
    if !thrown {
      Fill(ptr, seed);
    }
    acl.Release(ptr);
  }
}

/** `aio_operation` of common.hpp: four requests that together move a buffer to or from a file.
    Lengths count 64-bit words; cli.hpp makes the buffer a multiple of 2 MiB. */
module AioHelper {
  import opened Machine

  datatype Event = Event(data: nat, res: int, res2: int)

  const N: nat := 4

  /** `1U << d`. */
  function Bit(d: nat): bv4
    requires d < N
  {
    if d == 0 then 1 else if d == 1 then 2 else if d == 2 then 4 else 8
  }

  predicate Has(mask: bv4, d: nat)
    requires d < N
  {
    mask & Bit(d) != 0
  }

  lemma SetBit(mask: bv4, d: nat, e: nat)
    requires d < N && e < N
    ensures Has(mask | Bit(d), e) <==> d == e || Has(mask, e)
  {
    BitOnly(d, e);
    assert (mask | Bit(d)) & Bit(e) == (mask & Bit(e)) | (Bit(d) & Bit(e));
    OrZero(mask & Bit(e), Bit(d) & Bit(e));
  }

  lemma OrZero(x: bv4, y: bv4)
    ensures x | y == 0 <==> x == 0 && y == 0
  {
  }

  lemma BitOnly(d: nat, e: nat)
    requires d < N && e < N
    ensures Bit(d) & Bit(e) != 0 <==> d == e
  {
  }

  predicate Right(ev: Event, chunk: nat) {
    ev.data < N && ev.res == chunk && ev.res2 == 0
  }

  predicate SeenBefore(events: seq<Event>, i: nat, d: nat)
    requires i <= |events|
  {
    exists j :: 0 <= j < i && events[j].data == d
  }

  /** The four events are right and name four different requests. */
  predicate AllRight(events: seq<Event>, chunk: nat) {
    && (forall i :: 0 <= i < |events| ==> Right(events[i], chunk))
    && (forall i, j :: 0 <= i < j < |events| ==> events[i].data != events[j].data)
  }

  /** The loop over the events with its mask of requests already seen. */
  method CheckEvents(events: seq<Event>, chunk: nat) returns (failed: bool)
    requires |events| == N
    ensures failed <==> !AllRight(events, chunk)
  {
    var seen: bv4 := 0;
    failed := false;
    for i := 0 to N
      invariant IsMask(seen, events, i)
      invariant failed <==> !AllRight(events[..i], chunk)
    {
      var ev := events[i];
      AllRightNext(events, chunk, i);
      if ev.data >= N || Has(seen, ev.data) || ev.res != chunk || ev.res2 != 0 {
        failed := true;
      }
      MaskNext(events, i, seen);
      if ev.data < N {
        seen := seen | Bit(ev.data);
      }
    }
    assert events[..N] == events;
  }

  predicate IsMask(mask: bv4, events: seq<Event>, i: nat)
    requires i <= |events|
  {
    forall d :: 0 <= d < N ==> (Has(mask, d) <==> SeenBefore(events, i, d))
  }

  lemma MaskNext(events: seq<Event>, i: nat, mask: bv4)
    requires i < |events| && IsMask(mask, events, i)
    ensures IsMask(if events[i].data < N then mask | Bit(events[i].data) else mask, events, i + 1)
  {
    var next := if events[i].data < N then mask | Bit(events[i].data) else mask;
    forall d | 0 <= d < N
      ensures Has(next, d) <==> SeenBefore(events, i + 1, d)
    {
      SeenNext(events, i, d);
      if events[i].data < N {
        SetBit(mask, events[i].data, d);
      }
    }
  }

  lemma SeenNext(events: seq<Event>, i: nat, d: nat)
    requires i < |events|
    ensures SeenBefore(events, i + 1, d) <==> SeenBefore(events, i, d) || events[i].data == d
  {
    if events[i].data == d {
      assert i < i + 1 && events[i].data == d;
    }
    if SeenBefore(events, i, d) {
      var j :| 0 <= j < i && events[j].data == d;
      assert 0 <= j < i + 1;
    }
  }

  lemma AllRightNext(events: seq<Event>, chunk: nat, i: nat)
    requires i < |events|
    ensures AllRight(events[..i + 1], chunk) <==>
      AllRight(events[..i], chunk) && Right(events[i], chunk) && !SeenBefore(events, i, events[i].data)
  {
    var now, next := events[..i], events[..i + 1];
    if AllRight(next, chunk) {
      assert Right(next[i], chunk);
      forall j | 0 <= j < i
        ensures Right(now[j], chunk) && now[j].data != events[i].data
      {
        assert Right(next[j], chunk) && next[j].data != next[i].data;
      }
      forall a, b | 0 <= a < b < |now|
        ensures now[a].data != now[b].data
      {
        assert next[a].data != next[b].data;
      }
      assert Right(next[i], chunk);
    }
    if AllRight(now, chunk) && Right(events[i], chunk) && !SeenBefore(events, i, events[i].data) {
      forall a | 0 <= a < i + 1
        ensures Right(next[a], chunk)
      {
        assert a < i ==> Right(now[a], chunk);
      }
      forall a, b | 0 <= a < b < i + 1
        ensures next[a].data != next[b].data
      {
        if b < i {
          assert now[a].data != now[b].data;
        } else {
          assert !(0 <= a < i && events[a].data == events[i].data);
        }
      }
    }
  }

  /** Four different numbers below four are all the numbers below four: no request is missing. */
  lemma NoneMissing(events: seq<Event>, chunk: nat, d: nat)
    requires |events| == N && AllRight(events, chunk) && d < N
    ensures SeenBefore(events, N, d)
  {
    assert forall i :: 0 <= i < N ==> Right(events[i], chunk);
    assert events[0].data != events[1].data && events[0].data != events[2].data && events[0].data != events[3].data;
    assert events[1].data != events[2].data && events[1].data != events[3].data && events[2].data != events[3].data;
    var j := if events[0].data == d then 0 else if events[1].data == d then 1 else if events[2].data == d then 2 else 3;
    assert Right(events[0], chunk) && Right(events[1], chunk) && Right(events[2], chunk) && Right(events[3], chunk);
    assert events[j].data == d;
  }

  /** `i * chunk` for the four requests. */
  function Start(d: nat, chunk: nat): nat
    requires d < N
  {
    if d == 0 then 0 else if d == 1 then chunk else if d == 2 then 2 * chunk else 3 * chunk
  }

  /** A temporary file. */
  class Scratch {
    var words: seq<word>

    constructor ()
      ensures words == []
    {
      words := [];
    }

    method WriteAt(offset: nat, data: seq<word>)
      modifies this
      ensures |words| >= |old(words)| && |words| >= offset + |data|
      ensures forall k :: offset <= k < offset + |data| ==> words[k] == data[k - offset]
      ensures forall k :: 0 <= k < |old(words)| && !(offset <= k < offset + |data|) ==> words[k] == old(words)[k]
    {
      var padded := if |words| < offset + |data|
                    then words + seq(offset + |data| - |words|, _ => 0 as word) else words;
      words := padded[..offset] + data + padded[offset + |data|..];
    }
  }

  /** Part `d` of the buffer and of the file are the same. */
  ghost predicate Same(words: seq<word>, buffer: seq<word>, d: nat, chunk: nat)
    requires d < N
  {
    && Start(d, chunk) + chunk <= |buffer| && Start(d, chunk) + chunk <= |words|
    && forall k :: Start(d, chunk) <= k < Start(d, chunk) + chunk ==> words[k] == buffer[k]
  }

  lemma AllSame(words: seq<word>, buffer: seq<word>, chunk: nat)
    requires |buffer| == N * chunk
    requires Same(words, buffer, 0, chunk) && Same(words, buffer, 1, chunk)
    requires Same(words, buffer, 2, chunk) && Same(words, buffer, 3, chunk)
    ensures |words| >= |buffer| && words[..|buffer|] == buffer
  {
    forall k | 0 <= k < |buffer|
      ensures words[k] == buffer[k]
    {
      assert Start(0, chunk) <= k < Start(0, chunk) + chunk || Start(1, chunk) <= k < Start(1, chunk) + chunk
          || Start(2, chunk) <= k < Start(2, chunk) + chunk || Start(3, chunk) <= k < Start(3, chunk) + chunk;
    }
  }

  /** Where file and buffer change, they become equal, so parts that were the same stay the same. */
  ghost predicate Closer(words: seq<word>, buffer: seq<word>, words': seq<word>, buffer': seq<word>) {
    && |words'| >= |words| && |buffer'| == |buffer|
    && forall k :: 0 <= k < |words| && k < |buffer| ==>
         words'[k] == buffer'[k] || (words'[k] == words[k] && buffer'[k] == buffer[k])
  }

  lemma StillSame(words: seq<word>, buffer: seq<word>, words': seq<word>, buffer': seq<word>, d: nat, chunk: nat)
    requires d < N && Same(words, buffer, d, chunk) && Closer(words, buffer, words', buffer')
    ensures Same(words', buffer', d, chunk)
  {
  }

  /** The kernel's side. `busy` says of every live context how many accepted requests have not been
      reported; destroying a context waits for them and ends the context, whatever it returns. */
  class Kernel {
    var busy: map<nat, nat>
    var next: nat
    var fds: set<nat>
    /** Calls that failed, were accepted only in part, or reported something else than four full transfers. */
    var failures: nat
    /** File operations that have moved a whole buffer. */
    ghost var operations: nat

    ghost predicate Valid()
      reads this
    {
      next > 0 && forall c :: c in busy ==> 0 < c < next
    }

    constructor ()
      ensures Valid() && busy == map[] && fds == {} && failures == 0
    {
      busy := map[];
      next := 1;
      fds := {};
      operations, failures := 0, 0;
    }

    /** Any other call: fdatasync, unlink, posix_memalign. */
    method Call() returns (ok: bool)
      modifies this`failures
      ensures failures == old(failures) + if ok then 0 else 1
    {
      ok := *;
      failures := failures + if ok then 0 else 1;
    }

    method Setup() returns (ret: int, ctx: nat)
      requires Valid()
      modifies this`busy, this`next, this`failures
      ensures Valid() && failures == old(failures) + if ret == 0 then 0 else 1
      ensures ret == 0 ==> ctx != 0 && ctx !in old(busy) && busy == old(busy)[ctx := 0]
      ensures ret != 0 ==> ctx == 0 && busy == old(busy)
    {
      ret := *;
      if ret != 0 {
        failures := failures + 1;
        return ret, 0;
      }
      ctx := next;
      next := next + 1;
      busy := busy[ctx := 0];
    }

    method Submit(ctx: nat) returns (accepted: int)
      requires Valid() && ctx in busy
      modifies this`busy, this`failures
      ensures Valid() && accepted <= N && failures == old(failures) + if accepted == N then 0 else 1
      ensures busy == old(busy)[ctx := old(busy)[ctx] + if accepted > 0 then accepted else 0]
    {
      accepted :| accepted <= N;
      failures := failures + if accepted == N then 0 else 1;
      busy := busy[ctx := busy[ctx] + if accepted > 0 then accepted else 0];
    }

    method Destroy(ctx: nat) returns (ret: int)
      requires Valid() && ctx in busy
      modifies this`busy
      ensures Valid() && busy == old(busy) - {ctx}
    {
      ret := *;
      busy := busy - {ctx};
    }

    /** Up to four events. The kernel may report anything, except that it reports a full transfer of a
        part only if it has made it. */
    method GetEvents(ctx: nat, file: Scratch, buffer: array<word>, write: bool, chunk: nat)
        returns (completed: int, events: seq<Event>)
      requires Valid() && ctx in busy && buffer.Length == N * chunk
      modifies this`busy, this`failures, if write then {file} else {buffer}
      ensures Valid() && completed <= N && completed <= old(busy)[ctx]
      ensures failures == old(failures) + if completed == N && AllRight(events, chunk) then 0 else 1
      ensures busy == old(busy)[ctx := old(busy)[ctx] - if completed > 0 then completed else 0]
      ensures |events| == N
      ensures completed == N ==> forall j :: 0 <= j < N && Right(events[j], chunk) ==>
        Same(file.words, buffer[..], events[j].data, chunk)
    {
      completed :| completed <= N && completed <= busy[ctx];
      busy := busy[ctx := busy[ctx] - if completed > 0 then completed else 0];
      events := [];
      while |events| < N
        modifies if write then {file} else {buffer}
        invariant |events| <= N
        invariant forall j :: 0 <= j < |events| && Right(events[j], chunk) ==>
          Same(file.words, buffer[..], events[j].data, chunk)
        decreases N - |events|
      {
        var ev := Transfer(file, buffer, write, chunk, events);
        events := events + [ev];
      }
      failures := failures + if completed == N && AllRight(events, chunk) then 0 else 1;
    }

    /** One completion. */
    method Transfer(file: Scratch, buffer: array<word>, write: bool, chunk: nat, ghost earlier: seq<Event>)
        returns (ev: Event)
      requires buffer.Length == N * chunk
      requires forall j :: 0 <= j < |earlier| && Right(earlier[j], chunk) ==>
        Same(file.words, buffer[..], earlier[j].data, chunk)
      modifies if write then {file} else {buffer}
      ensures forall j :: 0 <= j < |earlier| && Right(earlier[j], chunk) ==>
        Same(file.words, buffer[..], earlier[j].data, chunk)
      ensures Right(ev, chunk) ==> Same(file.words, buffer[..], ev.data, chunk)
    {
      var data: nat :| true;
      var res, res2 := *, *;
      ev := Event(data, res, res2);
      if data < N && 0 <= res <= chunk {
        var at := Start(data, chunk);
        if !write && |file.words| < at + res {
          return Event(data, -5, res2);
        }
        ghost var words, before := file.words, buffer[..];
        Move(file, buffer, write, at, res);
        hide Closer;
        forall j | 0 <= j < |earlier| && Right(earlier[j], chunk)
          ensures Same(file.words, buffer[..], earlier[j].data, chunk)
        {
          StillSame(words, before, file.words, buffer[..], earlier[j].data, chunk);
        }
      }
    }

    /** What one request moves, one way or the other. */
    method Move(file: Scratch, buffer: array<word>, write: bool, at: nat, n: nat)
      requires at + n <= buffer.Length && (!write ==> at + n <= |file.words|)
      modifies if write then {file} else {buffer}
      ensures Closer(old(file.words), old(buffer[..]), file.words, buffer[..])
      ensures |file.words| >= at + n && forall k :: at <= k < at + n ==> file.words[k] == buffer[k]
    {
      if write {
        var data := buffer[at..at + n];
        file.WriteAt(at, data);
        assert forall k :: at <= k < at + n ==> file.words[k] == data[k - at] == buffer[k];
      } else {
        var data := file.words[at..at + n];
        ReadIn(buffer, at, data);
        assert forall k :: at <= k < at + n ==> buffer[k] == data[k - at] == file.words[k];
      }
    }

    /** The bytes of a read land in the buffer. */
    method ReadIn(buffer: array<word>, at: nat, data: seq<word>)
      requires at + |data| <= buffer.Length
      modifies buffer
      ensures forall p :: 0 <= p < buffer.Length ==>
        buffer[p] == if at <= p < at + |data| then data[p - at] else old(buffer[p])
    {
      for k := 0 to |data|
        invariant forall p :: 0 <= p < buffer.Length ==>
          buffer[p] == if at <= p < at + k then data[p - at] else old(buffer[p])
      {
        buffer[at + k] := data[k];
      }
    }

    method Open() returns (ok: bool, fd: nat)
      modifies this`fds, this`failures
      ensures failures == old(failures) + if ok then 0 else 1
      ensures if ok then fd !in old(fds) && fds == old(fds) + {fd} else fds == old(fds)
    {
      fd :| true;
      ok := *;
      ok := ok && fd !in fds;
      if ok {
        fds := fds + {fd};
      } else {
        failures := failures + 1;
      }
    }

    method Close(fd: nat)
      requires fd in fds
      modifies this`fds
      ensures fds == old(fds) - {fd}
    {
      fds := fds - {fd};
    }
  }

  /** `aio_operation`. It returns normally if and only if no call fails or reports something else than four full
      transfers, and then the whole buffer has been moved. When it throws, no
      request is left in flight: either all had been reported, or the context has been destroyed and
      the caller's context is 0. */
  method AioOperation(kernel: Kernel, ctx: nat, file: Scratch, buffer: array<word>, write: bool)
      returns (ok: bool, after: nat)
    requires kernel.Valid() && ctx in kernel.busy && kernel.busy[ctx] == 0 && buffer.Length % N == 0
    modifies kernel`busy, kernel`operations, kernel`failures, if write then {file} else {buffer}
    ensures kernel.Valid() && (after == ctx || after == 0)
    ensures kernel.failures == old(kernel.failures) + if ok then 0 else 1
    ensures kernel.operations == old(kernel.operations) + if ok then 1 else 0
    ensures after == ctx ==> kernel.busy == old(kernel.busy)
    ensures after == 0 ==> !ok && kernel.busy == old(kernel.busy) - {ctx}
    ensures ok ==> |file.words| >= buffer.Length && file.words[..buffer.Length] == buffer[..]
  {
    var chunk := buffer.Length / N;
    var submitted := kernel.Submit(ctx);
    if submitted != N {
      var ret := kernel.Destroy(ctx);
      return false, 0;
    }
    var completed, events := kernel.GetEvents(ctx, file, buffer, write, chunk);
    if completed != N {
      var ret := kernel.Destroy(ctx);
      return false, 0;
    }
    assert kernel.busy == old(kernel.busy);
    var failed := CheckEvents(events, chunk);
    if !failed {
      AllMoved(events, file.words, buffer[..], chunk);
      kernel.operations := kernel.operations + 1;
    }
    return !failed, ctx;
  }

  lemma AllMoved(events: seq<Event>, words: seq<word>, buffer: seq<word>, chunk: nat)
    requires |events| == N && AllRight(events, chunk) && |buffer| == N * chunk
    requires forall j :: 0 <= j < N && Right(events[j], chunk) ==> Same(words, buffer, events[j].data, chunk)
    ensures |words| >= |buffer| && words[..|buffer|] == buffer
  {
    forall d | 0 <= d < N
      ensures Same(words, buffer, d, chunk)
    {
      NoneMissing(events, chunk, d);
      var j :| 0 <= j < N && events[j].data == d;
      assert Right(events[j], chunk);
    }
    AllSame(words, buffer, chunk);
  }
}

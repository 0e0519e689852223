/** Who owns what and gives it back when: `HostMemory` of cache2_hal_aio.cc, which stops at the first
    failing release and tries again in its destructor, and `Allocation` of common.hpp, which goes on. */
module HostMemory {
  import opened Machine
  import opened Alignment
  import AioEngine
  import AioTheorems

  datatype Held = View(addr: nat, size: nat) | Grip(handle: nat, size: nat) | Region(addr: nat, size: nat)
                | Heap(base: nat, size: nat)

  datatype Pages = Auto | Normal | Huge

  /** What a process really holds. `torn` records whether a handle or a range has been given back while a
      view was still mapped; `failures` counts the release calls that failed, `refusals` the calls to obtain
      something that failed or answered with something unusable. */
  class Ledger {
    /** Whether the memory behind a handle has huge pages. */
    const huge: nat -> bool
    var live: set<Held>
    ghost var log: seq<Held>
    ghost var torn: bool
    var failures: nat
    var refusals: nat
    /** Requests of the current phase that the kernel has not finished. */
    ghost var inflight: set<nat>

    constructor (huge: nat -> bool)
      ensures live == {} && log == [] && !torn && failures == 0 && refusals == 0 && inflight == {}
    {
      this.huge := huge;
      live, log, torn, failures, refusals, inflight := {}, [], false, 0, 0, {};
    }

    /** A call that obtains something; what it yields is not held yet and not null. */
    method Obtain(x: Held) returns (ok: bool)
      modifies this`live, this`refusals
      ensures ok ==> x !in old(live) && live == old(live) + {x}
      ensures !ok ==> live == old(live)
      ensures refusals == old(refusals) + if ok then 0 else 1
    {
      ok := *;
      ok := ok && x !in live;
      if ok {
        live := live + {x};
      } else {
        refusals := refusals + 1;
      }
    }

    /** The recommended granularity, or 0 if the call fails or its answer cannot be worked with. */
    method Granularity() returns (g: nat)
      modifies this`refusals
      ensures g != 0 ==> g <= 0x100_0000_0000 && Lcm(GIB, g) < WORD
      ensures refusals == old(refusals) + if g != 0 then 0 else 1
    {
      g :| true;
      if g == 0 || g > 0x100_0000_0000 || Lcm(GIB, g) >= WORD {
        g := 0;
        refusals := refusals + 1;
      }
    }

    /** halMemAddressReserve: a range, or 0. */
    method Reserve(size: nat) returns (addr: nat)
      modifies this`live, this`refusals
      ensures addr != 0 ==> Region(addr, size) !in old(live) && live == old(live) + {Region(addr, size)}
      ensures addr == 0 ==> live == old(live)
      ensures refusals == old(refusals) + if addr != 0 then 0 else 1
    {
      addr :| true;
      if addr == 0 {
        refusals := refusals + 1;
        return;
      }
      var ok := Obtain(Region(addr, size));
      if !ok {
        addr := 0;
      }
    }

    /** halMemCreate: memory with the pages asked for, or 0. */
    method Create(size: nat, wantHuge: bool) returns (handle: nat)
      modifies this`live, this`refusals
      ensures handle != 0 ==> Grip(handle, size) !in old(live) && live == old(live) + {Grip(handle, size)}
      ensures handle != 0 ==> huge(handle) == wantHuge
      ensures handle == 0 ==> live == old(live)
      ensures refusals == old(refusals) + if handle != 0 then 0 else 1
    {
      handle :| true;
      if handle == 0 || huge(handle) != wantHuge {
        handle := 0;
        refusals := refusals + 1;
        return;
      }
      var ok := Obtain(Grip(handle, size));
      if !ok {
        handle := 0;
      }
    }

    /** halMemUnmap, halMemRelease, halMemAddressFree or free: never while a request is in flight. */
    method GiveBack(x: Held) returns (ok: bool)
      requires x in live && inflight == {}
      modifies this`live, this`log, this`torn, this`failures
      ensures log == old(log) + [x] && (x.Heap? ==> ok)
      ensures ok ==> live == old(live) - {x} && failures == old(failures)
      ensures !ok ==> live == old(live) && failures == old(failures) + 1 && torn == old(torn)
      ensures ok ==> torn == (old(torn) || Tears(x, old(live)))
    {
      ok := *;
      ok := ok || x.Heap?;
      log := log + [x];
      if ok {
        torn := torn || Tears(x, live);
        live := live - {x};
      } else {
        failures := failures + 1;
      }
    }
  }

  /** Giving `x` back pulls the ground from under a view. */
  ghost predicate Tears(x: Held, live: set<Held>) {
    (x.Grip? || x.Region?) && exists addr, size :: View(addr, size) in live
  }

  ghost predicate NoViews(live: set<Held>) { forall addr, size :: View(addr, size) !in live }

  class HostMemory {
    const ledger: Ledger
    var mallocBase: nat
    var addr: nat
    var handle: nat
    var mapped: bool
    /** Length of everything held. */
    var size: nat

    /** What the fields say is held. */
    ghost function Mine(): set<Held>
      reads this
    {
      if mallocBase != 0 then
        {Heap(mallocBase, size)}
      else
        var views := if mapped then {View(addr, size)} else {};
        var grips := if handle != 0 then {Grip(handle, size)} else {};
        var regions := if addr != 0 then {Region(addr, size)} else {};
        views + grips + regions
    }

    /** What `Release` is going to give back, in order. */
    ghost function Order(): seq<Held>
      reads this
    {
      if mallocBase != 0 then [Heap(mallocBase, size)] else Attempts(addr, handle, size, mapped)
    }

    /** The fields are exact: nothing is held that they do not show, nothing shown that is not held. */
    ghost predicate Valid(base: set<Held>)
      reads this, ledger
    {
      && (mapped ==> handle != 0 && addr != 0 && mallocBase == 0)
      && (handle != 0 ==> addr != 0 && mallocBase == 0)
      && Mine() !! base && ledger.live == base + Mine()
    }

    constructor (ledger: Ledger)
      ensures this.ledger == ledger && Valid(ledger.live) && Mine() == {}
    {
      this.ledger := ledger;
      mallocBase, addr, handle, mapped, size := 0, 0, 0, false, 0;
    }

    /** `Release`: view, handle, range, in this order, up to the first failure, which throws. Nothing is
        ever given back from under a view. */
    method Release(ghost base: set<Held>) returns (ok: bool)
      requires Valid(base) && NoViews(base) && ledger.inflight == {}
      modifies this, ledger`live, ledger`log, ledger`torn, ledger`failures
      ensures Valid(base) && ledger.torn == old(ledger.torn)
      ensures ledger.failures == old(ledger.failures) + if ok then 0 else 1
      ensures ok ==> Mine() == {} && ledger.live == base
      ensures old(ledger.log) <= ledger.log <= old(ledger.log) + old(Order())
      ensures ok ==> ledger.log == old(ledger.log) + old(Order())
      ensures Mine() <= old(Mine())
    {
      if mallocBase != 0 {
        ok := ledger.GiveBack(Heap(mallocBase, size));
        mallocBase, addr := 0, 0;
      } else {
        ok := ReleaseDriver(base);
      }
    }

    method ReleaseDriver(ghost base: set<Held>) returns (ok: bool)
      requires Valid(base) && NoViews(base) && ledger.inflight == {} && mallocBase == 0
      modifies this, ledger`live, ledger`log, ledger`torn, ledger`failures
      ensures Valid(base) && ledger.torn == old(ledger.torn) && mallocBase == 0
      ensures ledger.failures == old(ledger.failures) + if ok then 0 else 1
      ensures ok ==> Mine() == {}
      ensures old(ledger.log) <= ledger.log <= old(ledger.log) + old(Order())
      ensures ok ==> ledger.log == old(ledger.log) + old(Order())
      ensures Mine() <= old(Mine())
    {
      if mapped {
        ok := ledger.GiveBack(View(addr, size));
        if !ok {
          return;
        }
        mapped := false;
      }
      if handle != 0 {
        ok := ledger.GiveBack(Grip(handle, size));
        if !ok {
          return;
        }
        handle := 0;
      }
      if addr != 0 {
        ok := ledger.GiveBack(Region(addr, size));
        if !ok {
          return;
        }
        addr := 0;
      }
      ok := true;
    }

    /** `Allocate`: round the size up, reserve, create, map; the first failure throws and the fields keep
        what was obtained. `g` is the granularity that the driver recommends. Nothing but a refused call
        makes it fail. */
    method Allocate(bytes: nat, huge: bool, ghost base: set<Held>) returns (ok: bool, ghost g: nat)
      requires Valid(base) && Mine() == {}
      modifies this, ledger`live, ledger`refusals
      ensures Valid(base)
      ensures ok ==> mapped && mallocBase == 0 && Rounded(size, bytes, g) && ledger.huge(handle) == huge
      ensures ledger.refusals == old(ledger.refusals) + if ok then 0 else 1
    {
      var granularity := ledger.Granularity();
      g := granularity;
      if granularity == 0 {
        return false, g;
      }
      size := RankStride(bytes, granularity);
      addr := ledger.Reserve(size);
      if addr == 0 {
        return false, g;
      }
      handle := ledger.Create(size, huge);
      if handle == 0 {
        return false, g;
      }
      ok := ledger.Obtain(View(addr, size));
      mapped := ok;
    }

    /** malloc with room for aligning the address to 4096. */
    method AllocateHeap(bytes: nat, ghost base: set<Held>) returns (ok: bool)
      requires Valid(base) && Mine() == {}
      modifies this, ledger`live, ledger`refusals
      ensures Valid(base)
      ensures ledger.refusals == old(ledger.refusals) + if ok then 0 else 1
      ensures ok ==> mallocBase != 0 && addr % 4096 == 0 && mallocBase <= addr && addr + bytes <= mallocBase + size
    {
      var some: nat :| true;
      var block := some + 1;
      ok := ledger.Obtain(Heap(block, bytes + 4095));
      if ok {
        mallocBase, addr, size := block, (block + 4095) / 4096 * 4096, bytes + 4095;
      }
    }

    /** The setting up in `main`: malloc, or huge pages with a second attempt on normal pages. Without a
        refused call it succeeds, with huge pages unless normal ones are asked for. On `Auto` normal pages
        are what a refused first attempt leads to, and there is no error before they have been refused too
        or the first attempt could not be given back. */
    method Acquire(bytes: nat, heap: bool, pages: Pages, ghost base: set<Held>) returns (ok: bool, ghost g: nat)
      requires Valid(base) && Mine() == {} && NoViews(base) && ledger.inflight == {}
      modifies this, ledger`live, ledger`log, ledger`torn, ledger`failures, ledger`refusals
      ensures Valid(base) && ledger.torn == old(ledger.torn) && ledger.failures >= old(ledger.failures)
      ensures ledger.refusals == old(ledger.refusals) ==> ok
      ensures ok && !heap ==>
        ledger.huge(handle) == (pages == Huge || (pages == Auto && ledger.refusals == old(ledger.refusals)))
      ensures ok && !(pages == Auto && !heap) ==> ledger.refusals == old(ledger.refusals)
      ensures !ok && !heap && pages == Auto ==>
        ledger.refusals == old(ledger.refusals) + 2 || ledger.failures > old(ledger.failures)
      ensures ok && heap ==>
        mallocBase != 0 && addr % 4096 == 0 && mallocBase <= addr && addr + bytes <= mallocBase + size
      ensures ok && !heap ==> mapped && Rounded(size, bytes, g)
    {
      if heap {
        ok := AllocateHeap(bytes, base);
        g := 0;
        return;
      }
      ok, g := Allocate(bytes, pages != Normal, base);
      if ok || pages != Auto {
        return;
      }
      ok := Release(base);
      if ok {
        ok, g := Allocate(bytes, false, base);
      }
    }
  }

  /** The size is the data size rounded up to 1 GiB and an accepted granularity. */
  predicate Rounded(size: nat, bytes: nat, g: nat) {
    0 < g <= 0x100_0000_0000 && Lcm(GIB, g) < WORD && size == RankStride(bytes, g)
  }

  /** What is mapped covers the buffer if and only if rounding its size up does not wrap; for all sizes that
      the options admit and all granularities that divide 1 GiB, it does not. */
  lemma BufferCovered(size: nat, bytes: nat, g: nat)
    requires Rounded(size, bytes, g) && bytes <= 0x100_0000_0000
    ensures size >= bytes <==> bytes + Lcm(GIB, g) - 1 < WORD
    ensures GIB % g == 0 ==> size >= bytes
  {
    CoversIffNoWrap(bytes, Lcm(GIB, g));
    if GIB % g == 0 {
      DividingGranularity(g);
    }
  }

  /** One asynchronous phase from the start to the end of its object. */
  datatype Phase = Phase(cfg: AioEngine.Config, states: seq<AioEngine.State>, moves: seq<AioEngine.Move>)
  {
    ghost predicate Over() {
      AioEngine.IsRun(cfg, states, moves) && states[|moves|].s.Gone?
    }
  }

  /** Whatever happened in it, a phase that is over has left nothing in flight. */
  ghost method RunPhase(ledger: Ledger, phase: Phase)
    requires phase.Over()
    modifies ledger`inflight
    ensures ledger.inflight == {}
  {
    ledger.inflight := phase.states[|phase.moves|].k.inflight;
    AioTheorems.TeardownOrder(phase.cfg, phase.states, phase.moves, |phase.moves|);
  }

  /** The whole life of the buffer, with the phases that use it. Whatever fails, nothing is given back while
      a request is in flight, and no range or handle from under a view; and if no release fails, nothing
      is left behind. A release that failed before may be tried again by the destructor, so with a failure
      something may or may not be left. */
  method Life(ledger: Ledger, bytes: nat, heap: bool, pages: Pages, ghost phases: seq<Phase>) returns (ok: bool)
    requires NoViews(ledger.live) && ledger.inflight == {} && forall k :: 0 <= k < |phases| ==> phases[k].Over()
    modifies ledger
    ensures ledger.torn == old(ledger.torn) && old(ledger.live) <= ledger.live
    ensures ledger.failures == old(ledger.failures) ==> ledger.live == old(ledger.live)
    ensures ledger.refusals == old(ledger.refusals) ==> ok
  {
    ghost var base := ledger.live;
    ghost var g;
    var memory := new HostMemory(ledger);
    ok, g := memory.Acquire(bytes, heap, pages, base);
    if ok {
      ghost var k := 0;
      while k < |phases|
        modifies ledger`inflight
        invariant ledger.inflight == {}
      {
        RunPhase(ledger, phases[k]);
        k := k + 1;
      }
    }
    var released := memory.Release(base);
  }

  /** `Allocation`: one attempt each, in order, whatever the earlier ones returned. */
  method DestroyAllocation(ledger: Ledger, va: nat, handle: nat, size: nat, mapped: bool) returns (ghost unmapped: bool)
    requires mapped ==> View(va, size) in ledger.live && handle != 0 && va != 0
    requires handle != 0 ==> Grip(handle, size) in ledger.live
    requires va != 0 ==> Region(va, size) in ledger.live
    requires ledger.inflight == {} && forall a, n :: View(a, n) in ledger.live ==> mapped && a == va && n == size
    modifies ledger
    ensures ledger.log == old(ledger.log) + Attempts(va, handle, size, mapped)
    ensures mapped ==> (unmapped <==> View(va, size) !in ledger.live)
    ensures ledger.failures == old(ledger.failures) ==>
      ledger.live == old(ledger.live) - (set x | x in Attempts(va, handle, size, mapped))
    ensures !old(ledger.torn) && unmapped ==> !ledger.torn
    ensures ledger.torn && !old(ledger.torn) ==> mapped && !unmapped
  {
    unmapped := true;
    if mapped {
      var ok := ledger.GiveBack(View(va, size));
      unmapped := ok;
    }
    if handle != 0 {
      var ok := ledger.GiveBack(Grip(handle, size));
    }
    if va != 0 {
      var ok := ledger.GiveBack(Region(va, size));
    }
  }

  /** What is given back, in order. */
  ghost function Attempts(va: nat, handle: nat, size: nat, mapped: bool): seq<Held> {
    (if mapped then [View(va, size)] else []) + (if handle != 0 then [Grip(handle, size)] else [])
      + (if va != 0 then [Region(va, size)] else [])
  }
}

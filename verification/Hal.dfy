/** What the data strategy needs from outside: the memory driver (ucm_data_strategy/trans/ascend/hal)
    and the clock. Every driver call may fail; which one does is left open.

    `space` is what one process holds: reserved address ranges, handles and the physical memory each
    of them denotes, and the mapped ranges. */
module Hal {
  import opened Machine
  import opened Alignment

  datatype PageType = Normal | Huge

  datatype Status = OK | Error(code: int)

  const ERROR: int := -1
  const OUT_OF_MEMORY: int := -50001
  const INVALID_PARAM: int := -50000
  const TIMEOUT: int := -50010

  /** Something that has to be given back: a mapping, a handle, an address range. */
  datatype Resource = View(base: nat) | Grip(handle: nat) | Region(base: nat)

  datatype Space = Space(reserved: map<nat, nat>, handles: map<nat, nat>, views: map<nat, (nat, nat)>)

  /** The space without some resources. */
  function Without(space: Space, rs: set<Resource>): Space {
    Space(space.reserved - (set x | x in rs && x.Region? :: x.base),
          space.handles - (set x | x in rs && x.Grip? :: x.handle),
          space.views - (set x | x in rs && x.View? :: x.base))
  }

  /** The range [base, base + size) lies below 2^64 and meets no range already reserved. */
  predicate Free(reserved: map<nat, nat>, base: nat, size: nat) {
    && base + size <= WORD
    && base !in reserved
    && forall b :: b in reserved ==> base + size <= b || b + reserved[b] <= base
  }

  /** Reserved ranges lie in the address space and do not overlap. */
  predicate Apart(reserved: map<nat, nat>) {
    && (forall b :: b in reserved ==> b + reserved[b] <= WORD)
    && (forall b, c :: b in reserved && c in reserved && b < c ==> b + reserved[b] <= c)
  }

  /** No physical memory changes its creator or is forgotten. */
  predicate Extends(now: map<nat, nat>, before: map<nat, nat>) {
    forall p :: p in before ==> p in now && now[p] == before[p]
  }

  /** The machine that all processes share. */
  class Host {
    /** Which physical memory a shareable handle denotes. */
    const target: nat -> nat
    /** The recommended granularity for each kind of pages. */
    const granularity: PageType -> nat
    /** How large each physical memory is. */
    const extent: nat -> nat
    /** What kind of pages each physical memory consists of. */
    const pages: nat -> PageType
    /** Every physical memory created so far, and the process that created it. */
    var creator: map<nat, nat>

    constructor (target: nat -> nat, granularity: PageType -> nat, extent: nat -> nat, pages: nat -> PageType)
      ensures this.target == target && this.granularity == granularity && this.extent == extent && this.pages == pages
      ensures creator == map[]
    {
      this.target, this.granularity, this.extent, this.pages := target, granularity, extent, pages;
      creator := map[];
    }
  }

  /** The driver as one process uses it. */
  class Driver {
    const host: Host
    const process: nat
    var space: Space
    /** Resources obtained whose one attempt at giving back is still due, and all such attempts, in order. */
    var outstanding: set<Resource>
    ghost var log: seq<Resource>
    /** Failed attempts to give something back. */
    var failures: nat
    /** Other calls that failed or gave an answer of no use; want of memory for the records counts as well. */
    var refusals: nat
    /** The kinds of pages whose granularity has been asked for, in order. */
    ghost var asked: seq<PageType>
    /** Shareable handles that every process may import, and the devices named in calls. */
    ghost var importable: set<nat>
    ghost var devices: set<int>

    constructor (host: Host, process: nat)
      ensures this.host == host && this.process == process && space == Space(map[], map[], map[])
      ensures outstanding == {} && log == [] && failures == 0 && refusals == 0 && asked == []
      ensures importable == {} && devices == {}
    {
      this.host, this.process := host, process;
      space := Space(map[], map[], map[]);
      outstanding := {};
      log, asked, importable, devices := [], [], {}, {};
      failures, refusals := 0, 0;
    }

    /** The end of a call that gives nothing. */
    method Refuse() returns (status: Status)
      modifies this`refusals
      ensures status == Error(ERROR) && refusals == old(refusals) + 1
    {
      refusals := refusals + 1;
      status := Error(ERROR);
    }

    /** A call that gives nothing but its status. */
    method Succeeds() returns (status: Status)
      modifies this`refusals
      ensures status.OK? || status == Error(ERROR)
      ensures refusals == old(refusals) + if status.OK? then 0 else 1
    {
      var fails: bool := *;
      status := OK;
      if fails {
        status := Refuse();
      }
    }

    /** Device::Setup. */
    method SetUpDevice(deviceId: int) returns (status: Status)
      modifies this`refusals, this`devices
      ensures devices == old(devices) + {deviceId}
      ensures status.OK? || status == Error(ERROR)
      ensures refusals == old(refusals) + if status.OK? then 0 else 1
    {
      devices := devices + {deviceId};
      status := Succeeds();
    }

    /** Growing the list of mappings; the failure is the exception std::bad_alloc. */
    method Room() returns (status: Status)
      modifies this`refusals
      ensures status.OK? || status == Error(OUT_OF_MEMORY)
      ensures refusals == old(refusals) + if status.OK? then 0 else 1
    {
      status := Succeeds();
      if status.Error? {
        status := Error(OUT_OF_MEMORY);
      }
    }

    /** Physical memory `p` is this process's, and there was no such memory when `before` was true. */
    ghost predicate Made(before: map<nat, nat>, p: nat)
      reads host
    {
      p !in before && p in host.creator && host.creator[p] == process
    }

    /** The recommended granularity; a failing call leaves 0 behind. */
    method Granularity(pageType: PageType) returns (status: Status, g: nat)
      modifies this`refusals, this`asked
      ensures status.Error? ==> g == 0 && status == Error(ERROR)
      ensures g > 0 ==> g == host.granularity(pageType) && Lcm(GIB, g) < WORD
      ensures refusals == old(refusals) + (if g > 0 then 0 else 1) && asked == old(asked) + [pageType]
    {
      asked := asked + [pageType];
      g := host.granularity(pageType);
      if g == 0 {
        status := Null();
        return;
      }
      var fails: bool := *;
      if fails || Lcm(GIB, g) >= WORD {
        g := 0;
        status := Refuse();
        return;
      }
      status := OK;
    }

    /** Nothing given, though the status may say otherwise. */
    method Null() returns (status: Status)
      modifies this`refusals
      ensures (status.OK? || status == Error(ERROR)) && refusals == old(refusals) + 1
    {
      status := Refuse();
      var claims: bool := *;
      if claims {
        status := OK;
      }
    }

    /** halMemAddressReserve; it may report success with a null address. */
    method Reserve(size: nat) returns (status: Status, base: nat)
      modifies this`space, this`outstanding, this`refusals
      ensures status.Error? ==> base == 0 && status == Error(ERROR)
      ensures refusals == old(refusals) + if base != 0 then 0 else 1
      ensures Apart(old(space.reserved)) ==> Apart(space.reserved)
      ensures base == 0 ==> space == old(space) && outstanding == old(outstanding)
      ensures base != 0 ==>
                && Free(old(space.reserved), base, size) && base !in old(space.views)
                && space == old(space).(reserved := old(space.reserved)[base := size])
                && Region(base) !in old(outstanding) && outstanding == old(outstanding) + {Region(base)}
    {
      var wanted: nat :| true;
      base := 0;
      if wanted == 0 {
        status := Null();
        return;
      }
      if !Free(space.reserved, wanted, size) || wanted in space.views || Region(wanted) in outstanding {
        status := Refuse();
        return;
      }
      base := wanted;
      space := space.(reserved := space.reserved[base := size]);
      outstanding := outstanding + {Region(base)};
      status := OK;
    }

    /** halMemCreate: physical memory of the given size and kind that is new on the whole machine, held by a new
        handle. Other processes may have created memory in the meantime. */
    method Create(size: nat, pageType: PageType) returns (status: Status, handle: nat)
      modifies this`space, this`outstanding, this`refusals, host
      ensures refusals == (old(refusals) + if status.OK? then 0 else 1) && (status.OK? || status == Error(ERROR))
      ensures Extends(host.creator, old(host.creator))
      ensures status.Error? ==> handle == 0 && space == old(space) && outstanding == old(outstanding)
      ensures status.OK? ==>
                && handle != 0 && handle !in old(space.handles)
                && space.handles.Keys == old(space.handles.Keys) + {handle}
                && Made(old(host.creator), space.handles[handle])
                && host.extent(space.handles[handle]) == size && host.pages(space.handles[handle]) == pageType
                && space == old(space).(handles := old(space.handles)[handle := space.handles[handle]])
                && Grip(handle) !in old(outstanding) && outstanding == old(outstanding) + {Grip(handle)}
    {
      Elsewhere();
      var h: nat, p: nat :| true;
      handle := 0;
      if h == 0 || h in space.handles || p in host.creator || host.extent(p) != size || host.pages(p) != pageType
         || Grip(h) in outstanding {
        status := Refuse();
        return;
      }
      handle := h;
      space := space.(handles := space.handles[h := p]);
      host.creator := host.creator[p := process];
      outstanding := outstanding + {Grip(h)};
      status := OK;
    }

    /** Any number of other processes create memory. */
    method Elsewhere()
      modifies host
      ensures Extends(host.creator, old(host.creator))
      ensures forall p :: p in host.creator && p !in old(host.creator) ==> host.creator[p] != process
    {
      var more: nat :| true;
      while more > 0
        invariant Extends(host.creator, old(host.creator))
        invariant forall p :: p in host.creator && p !in old(host.creator) ==> host.creator[p] != process
      {
        var p: nat, other: nat :| true;
        if p !in host.creator && other != process {
          host.creator := host.creator[p := other];
        }
        more := more - 1;
      }
    }

    /** halMemImportFromShareableHandle. */
    method Import(share: nat, deviceId: int) returns (status: Status, handle: nat)
      modifies this`space, this`outstanding, this`refusals, this`devices
      ensures devices == old(devices) + {deviceId}
      ensures refusals == (old(refusals) + if status.OK? then 0 else 1) && (status.OK? || status == Error(ERROR))
      ensures status.Error? ==> handle == 0 && space == old(space) && outstanding == old(outstanding)
      ensures status.OK? ==>
                && handle != 0 && handle !in old(space.handles)
                && space == old(space).(handles := old(space.handles)[handle := host.target(share)])
                && Grip(handle) !in old(outstanding) && outstanding == old(outstanding) + {Grip(handle)}
    {
      devices := devices + {deviceId};
      var h: nat :| true;
      handle := 0;
      if h == 0 || h in space.handles || Grip(h) in outstanding {
        status := Refuse();
        return;
      }
      handle := h;
      space := space.(handles := space.handles[h := host.target(share)]);
      outstanding := outstanding + {Grip(h)};
      status := OK;
    }

    /** halMemMap at offset 0: the range must be reserved, free of mappings, and the handle live. A mapping
        longer than the memory is refused. */
    method Map(base: nat, size: nat, handle: nat) returns (status: Status)
      requires base in space.reserved && size == space.reserved[base] && base !in space.views
      requires handle in space.handles
      modifies this`space, this`outstanding, this`refusals
      ensures refusals == (old(refusals) + if status.OK? then 0 else 1) && (status.OK? || status == Error(ERROR))
      ensures status.Error? ==> space == old(space) && outstanding == old(outstanding)
      ensures status.OK? ==>
                && space == old(space).(views := old(space.views)[base := (handle, size)])
                && size <= host.extent(old(space.handles)[handle])
                && View(base) !in old(outstanding) && outstanding == old(outstanding) + {View(base)}
    {
      var ok: bool := *;
      if !ok || View(base) in outstanding || size > host.extent(space.handles[handle]) {
        status := Refuse();
        return;
      }
      space := space.(views := space.views[base := (handle, size)]);
      outstanding := outstanding + {View(base)};
      status := OK;
    }

    /** halMemUnmap, halMemRelease and halMemAddressFree: one attempt to give a resource back. */
    method GiveBack(x: Resource) returns (status: Status)
      requires x in outstanding
      modifies this`space, this`outstanding, this`log, this`failures
      ensures log == old(log) + [x] && outstanding == old(outstanding) - {x}
      ensures Apart(old(space.reserved)) ==> Apart(space.reserved)
      ensures status.OK? ==> space == Without(old(space), {x}) && failures == old(failures)
      ensures status.Error? ==> space == old(space) && failures == old(failures) + 1
    {
      log := log + [x];
      outstanding := outstanding - {x};
      var ok: bool := *;
      if !ok {
        failures := failures + 1;
        return Error(ERROR);
      }
      space := Without(space, {x});
      status := OK;
    }

    method Export(handle: nat) returns (status: Status, share: nat)
      requires handle in space.handles
      modifies this`refusals
      ensures refusals == (old(refusals) + if status.OK? then 0 else 1) && (status.OK? || status == Error(ERROR))
      ensures status.OK? ==> share < WORD && host.target(share) == space.handles[handle]
    {
      share :| true;
      if share >= WORD || host.target(share) != space.handles[handle] {
        share := 0;
        status := Refuse();
        return;
      }
      status := OK;
    }

    method DisableWhitelist(share: nat) returns (status: Status)
      modifies this`refusals, this`importable
      ensures importable == old(importable) + if status.OK? then {share} else {}
      ensures refusals == (old(refusals) + if status.OK? then 0 else 1) && (status.OK? || status == Error(ERROR))
    {
      status := Succeeds();
      if status.OK? {
        importable := importable + {share};
      }
    }
  }

  /** A monotonic clock in milliseconds. */
  class Clock {
    var now: nat

    method Read() returns (t: nat)
      modifies this
      ensures t == now && now >= old(now)
    {
      var passed: nat :| true;
      now := now + passed;
      t := now;
    }

    method SleepUntil(t: nat)
      modifies this
      ensures now >= old(now) && now >= t
    {
      var late: nat :| true;
      now := (if t > now then t else now) + late;
    }
  }
}

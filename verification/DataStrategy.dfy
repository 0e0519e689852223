/** ucm_data_strategy/data_strategy.cc: acquires one local and many imported memories, rolls back on any
    failure, and answers slot-address queries. */
module DataStrategy {
  import opened Machine
  import opened Alignment
  import opened Hal
  import CtrlLayout

  /** Null pointers are 0. */
  datatype Mapping = Mapping(handle: nat, addr: nat, mapped: bool)

  const EMPTY := Mapping(0, 0, false)

  /** No other rank has anything recorded. */
  predicate OthersEmpty(ms: seq<Mapping>, owner: nat) {
    forall r :: 0 <= r < |ms| && r != owner ==> ms[r] == EMPTY
  }

  /* ---- what is recorded, as a set and in the order of `Reset` ---- */

  function ViewsFrom(ms: seq<Mapping>, k: nat): set<Resource> {
    set r | k <= r < |ms| && ms[r].mapped :: View(ms[r].addr)
  }

  /** Handles of the ranks from `k` on, without that of `except`. */
  function GripsFrom(ms: seq<Mapping>, k: nat, except: nat): set<Resource> {
    set r | k <= r < |ms| && r != except && ms[r].handle != 0 :: Grip(ms[r].handle)
  }

  function OwnGrip(ms: seq<Mapping>, owner: nat): set<Resource> {
    if owner < |ms| && ms[owner].handle != 0 then {Grip(ms[owner].handle)} else {}
  }

  function RegionsFrom(ms: seq<Mapping>, k: nat): set<Resource> {
    set r | k <= r < |ms| && ms[r].addr != 0 :: Region(ms[r].addr)
  }

  function Owned(ms: seq<Mapping>, owner: nat): set<Resource> {
    ViewsFrom(ms, 0) + (GripsFrom(ms, 0, owner) + OwnGrip(ms, owner) + RegionsFrom(ms, 0))
  }

  /** The first `k` ranks of the three passes of `Reset` over all ranks. */
  function Unmaps(ms: seq<Mapping>, k: nat): seq<Resource>
    requires k <= |ms|
  {
    if k == 0 then [] else Unmaps(ms, k - 1) + (if ms[k - 1].mapped then [View(ms[k - 1].addr)] else [])
  }

  function PeerReleases(ms: seq<Mapping>, owner: nat, k: nat): seq<Resource>
    requires k <= |ms|
  {
    if k == 0 then []
    else PeerReleases(ms, owner, k - 1) +
         (if k - 1 != owner && ms[k - 1].handle != 0 then [Grip(ms[k - 1].handle)] else [])
  }

  function Frees(ms: seq<Mapping>, k: nat): seq<Resource>
    requires k <= |ms|
  {
    if k == 0 then [] else Frees(ms, k - 1) + (if ms[k - 1].addr != 0 then [Region(ms[k - 1].addr)] else [])
  }

  function OwnRelease(ms: seq<Mapping>, owner: nat): seq<Resource> {
    if owner < |ms| && ms[owner].handle != 0 then [Grip(ms[owner].handle)] else []
  }

  /** Everything `Reset` gives back, in its order: all mappings, the peers' handles, the own handle, all
      address ranges. */
  function ResetLog(ms: seq<Mapping>, owner: nat): seq<Resource> {
    Unmaps(ms, |ms|) + PeerReleases(ms, owner, |ms|) + OwnRelease(ms, owner) + Frees(ms, |ms|)
  }

  /** No two ranks share an address or a handle. */
  predicate Distinct(ms: seq<Mapping>) {
    && (forall r, q :: 0 <= r < q < |ms| && ms[r].addr != 0 ==> ms[r].addr != ms[q].addr)
    && (forall r, q :: 0 <= r < q < |ms| && ms[r].handle != 0 ==> ms[r].handle != ms[q].handle)
  }

  /** One rank's record agrees with what the driver holds. */
  predicate RecordOk(space: Space, m: Mapping, stride: nat) {
    && (m.addr != 0 ==> m.addr in space.reserved && space.reserved[m.addr] == stride)
    && (m.handle != 0 ==> m.handle in space.handles)
    && (m.mapped ==> m.addr != 0 && m.handle != 0 && m.addr in space.views && space.views[m.addr] == (m.handle, stride))
    && (m.addr != 0 && !m.mapped ==> m.addr !in space.views)
  }

  /** The stride is what some granularity of the driver leads to. */
  ghost predicate StrideOk(host: Host, stride: nat, dataBytes: nat) {
    exists pages :: StrideFor(host.granularity(pages), stride, dataBytes)
  }

  predicate StrideFor(g: nat, stride: nat, dataBytes: nat) {
    g > 0 && Lcm(GIB, g) < WORD && stride == RankStride(dataBytes, g)
  }

  /** A rank is completely set up, and its mapping denotes physical memory `memory`. */
  predicate Denotes(space: Space, m: Mapping, memory: nat) {
    && m.mapped && m.addr != 0 && m.handle != 0
    && m.handle in space.handles && space.handles[m.handle] == memory
  }

  /** A peer is completely set up, and if descriptors arrive faithfully, mapped to what it published. */
  ghost predicate Reaches(space: Space, m: Mapping, host: Host, stride: nat, desc: seq<nat>, r: nat, faithful: bool) {
    && m.mapped && m.addr != 0 && m.handle != 0 && m.handle in space.handles
    && stride <= host.extent(space.handles[m.handle])
    && (faithful ==> r < |desc| && space.handles[m.handle] == host.target(desc[r]))
  }

  ghost predicate AllReach(space: Space, ms: seq<Mapping>, owner: nat, host: Host, stride: nat, desc: seq<nat>,
                           ranks: nat, faithful: bool)
  {
    forall r :: 0 <= r < ranks && r != owner && r < |ms| ==> Reaches(space, ms[r], host, stride, desc, r, faithful)
  }

  /** One more peer leaves the others as they were. */
  lemma ReachesMore(space: Space, grown: Space, ms: seq<Mapping>, ns: seq<Mapping>, owner: nat, host: Host, stride: nat,
                    desc: seq<nat>, rank: nat, faithful: bool)
    requires AllReach(space, ms, owner, host, stride, desc, rank, faithful) && rank < |ms| == |ns|
    requires forall r :: 0 <= r < |ms| && r != rank ==> ns[r] == ms[r]
    requires forall h :: h in space.handles ==> h in grown.handles && grown.handles[h] == space.handles[h]
    requires rank != owner ==> Reaches(grown, ns[rank], host, stride, desc, rank, faithful)
    ensures AllReach(grown, ns, owner, host, stride, desc, rank + 1, faithful)
  {
    forall r | 0 <= r < rank + 1 && r != owner
      ensures Reaches(grown, ns[r], host, stride, desc, r, faithful)
    {
      assert r < rank ==> Reaches(space, ms[r], host, stride, desc, r, faithful);
    }
  }

  /* ---- sets of resources ---- */

  lemma OwnedEmpty(ms: seq<Mapping>, owner: nat)
    requires forall r :: 0 <= r < |ms| ==> ms[r] == EMPTY
    ensures Owned(ms, owner) == {}
  {
  }

  /** Recording a reservation, a handle or a mapping adds exactly that resource. */
  lemma OwnedReserved(ms: seq<Mapping>, owner: nat, r: nat, addr: nat)
    requires r < |ms| && ms[r].addr == 0 && !ms[r].mapped && addr != 0
    ensures Owned(ms[r := ms[r].(addr := addr)], owner) == Owned(ms, owner) + {Region(addr)}
  {
    var ns := ms[r := ms[r].(addr := addr)];
    assert ViewsFrom(ns, 0) == ViewsFrom(ms, 0) by {
      forall q | 0 <= q < |ms| && ms[q].mapped ensures View(ms[q].addr) in ViewsFrom(ns, 0) {
        assert ns[q] == ms[q];
      }
    }
    assert GripsFrom(ns, 0, owner) == GripsFrom(ms, 0, owner) by {
      forall q | 0 <= q < |ms| && q != owner && ms[q].handle != 0
        ensures Grip(ms[q].handle) in GripsFrom(ns, 0, owner)
      {
        assert ns[q].handle == ms[q].handle;
      }
    }
    assert Region(ns[r].addr) in RegionsFrom(ns, 0);
    assert RegionsFrom(ns, 0) == RegionsFrom(ms, 0) + {Region(addr)} by {
      forall q | 0 <= q < |ms| && ms[q].addr != 0 ensures Region(ms[q].addr) in RegionsFrom(ns, 0) {
        assert ns[q].addr == ms[q].addr;
      }
    }
  }

  lemma OwnedHeld(ms: seq<Mapping>, owner: nat, r: nat, handle: nat)
    requires r < |ms| && ms[r].handle == 0 && handle != 0
    ensures Owned(ms[r := ms[r].(handle := handle)], owner) == Owned(ms, owner) + {Grip(handle)}
  {
    var ns := ms[r := ms[r].(handle := handle)];
    assert ViewsFrom(ns, 0) == ViewsFrom(ms, 0) by {
      forall q | 0 <= q < |ms| && ms[q].mapped ensures View(ms[q].addr) in ViewsFrom(ns, 0) {
        assert ns[q].addr == ms[q].addr;
      }
    }
    assert RegionsFrom(ns, 0) == RegionsFrom(ms, 0) by {
      forall q | 0 <= q < |ms| && ms[q].addr != 0 ensures Region(ms[q].addr) in RegionsFrom(ns, 0) {
        assert ns[q].addr == ms[q].addr;
      }
    }
    forall q | 0 <= q < |ms| && q != owner && ms[q].handle != 0 ensures Grip(ms[q].handle) in GripsFrom(ns, 0, owner) {
      assert ns[q].handle == ms[q].handle;
    }
    if r == owner {
      assert GripsFrom(ns, 0, owner) == GripsFrom(ms, 0, owner);
    } else {
      assert Grip(ns[r].handle) in GripsFrom(ns, 0, owner);
      assert GripsFrom(ns, 0, owner) == GripsFrom(ms, 0, owner) + {Grip(handle)};
    }
  }

  lemma OwnedMapped(ms: seq<Mapping>, owner: nat, r: nat)
    requires r < |ms| && !ms[r].mapped
    ensures Owned(ms[r := ms[r].(mapped := true)], owner) == Owned(ms, owner) + {View(ms[r].addr)}
  {
    var ns := ms[r := ms[r].(mapped := true)];
    assert forall q :: 0 <= q < |ms| ==> ns[q].addr == ms[q].addr && ns[q].handle == ms[q].handle;
    assert RegionsFrom(ns, 0) == RegionsFrom(ms, 0);
    assert GripsFrom(ns, 0, owner) == GripsFrom(ms, 0, owner);
    assert View(ns[r].addr) in ViewsFrom(ns, 0);
    assert ViewsFrom(ns, 0) == ViewsFrom(ms, 0) + {View(ms[r].addr)} by {
      forall q | 0 <= q < |ms| && ms[q].mapped ensures View(ms[q].addr) in ViewsFrom(ns, 0) {
        assert ns[q].addr == ms[q].addr && ns[q].mapped;
      }
    }
  }

  /** Each pass gives back something else. */
  lemma PassesDisjoint(space: Space, ms: seq<Mapping>, owner: nat, stride: nat)
    requires Distinct(ms) && forall r :: 0 <= r < |ms| ==> RecordOk(space, ms[r], stride)
    ensures forall r :: 0 <= r < |ms| && ms[r].mapped ==> ms[r].addr != 0
    ensures forall x :: x in GripsFrom(ms, 0, owner) + OwnGrip(ms, owner) + RegionsFrom(ms, 0) ==> !x.View?
    ensures forall x :: x in RegionsFrom(ms, 0) ==> x.Region?
    ensures forall r :: 0 <= r < |ms| && r != owner && ms[r].handle != 0 ==>
              Grip(ms[r].handle) !in OwnGrip(ms, owner) + RegionsFrom(ms, 0)
  {
  }

  lemma GripsNext(ms: seq<Mapping>, k: nat, except: nat)
    requires Distinct(ms) && k < |ms|
    ensures k != except && ms[k].handle != 0 ==>
              && Grip(ms[k].handle) !in GripsFrom(ms, k + 1, except)
              && GripsFrom(ms, k, except) == GripsFrom(ms, k + 1, except) + {Grip(ms[k].handle)}
    ensures k == except || ms[k].handle == 0 ==> GripsFrom(ms, k, except) == GripsFrom(ms, k + 1, except)
  {
  }

  /** `grown` is `space` with one new entry, for `x`. */
  ghost predicate Added(space: Space, grown: Space, x: Resource) {
    match x
    case View(b) =>
      && b !in space.views && b in grown.views
      && grown == space.(views := space.views[b := grown.views[b]])
    case Grip(h) =>
      && h !in space.handles && h in grown.handles
      && grown == space.(handles := space.handles[h := grown.handles[h]])
    case Region(b) =>
      && b !in space.reserved && b in grown.reserved
      && grown == space.(reserved := space.reserved[b := grown.reserved[b]])
  }

  lemma Names(rs: set<Resource>, x: Resource)
    ensures (set y | y in rs + {x} && y.Region? :: y.base)
      == (set y | y in rs && y.Region? :: y.base) + (if x.Region? then {x.base} else {})
    ensures (set y | y in rs + {x} && y.Grip? :: y.handle)
      == (set y | y in rs && y.Grip? :: y.handle) + (if x.Grip? then {x.handle} else {})
    ensures (set y | y in rs + {x} && y.View? :: y.base)
      == (set y | y in rs && y.View? :: y.base) + (if x.View? then {x.base} else {})
  {
  }

  /** A resource obtained and recorded leaves the rest of the space as it was. */
  lemma WithoutGrown(space: Space, grown: Space, x: Resource, rs: set<Resource>)
    requires Added(space, grown, x)
    ensures Without(grown, rs + {x}) == Without(space, rs)
  {
    Names(rs, x);
  }

  lemma NothingLeft(space: Space)
    ensures Without(space, {}) == space
  {
  }

  lemma WithoutNext(space: Space, x: Resource, rs: set<Resource>)
    ensures Without(Without(space, {x}), rs) == Without(space, rs + {x})
  {
    Names(rs, x);
    Names({}, x);
    assert {} + {x} == {x};
  }

  /** Everything recorded is held; apart from it the process holds `home` and owes `base`. */
  ghost predicate Consistent(outstanding: set<Resource>, space: Space, ms: seq<Mapping>, owner: nat, stride: nat,
                             base: set<Resource>, home: Space)
  {
    && outstanding == base + Owned(ms, owner)
    && base !! Owned(ms, owner)
    && Without(space, Owned(ms, owner)) == home
    && Distinct(ms)
    && Apart(space.reserved)
    && (forall r :: 0 <= r < |ms| ==> RecordOk(space, ms[r], stride))
  }

  lemma ReservedConsistent(outstanding: set<Resource>, space: Space, grown: Space, ms: seq<Mapping>, owner: nat,
                           stride: nat, base: set<Resource>, home: Space, r: nat, addr: nat)
    requires Consistent(outstanding, space, ms, owner, stride, base, home)
    requires r < |ms| && ms[r].addr == 0 && !ms[r].mapped && addr != 0
    requires Region(addr) !in outstanding && addr !in space.reserved && addr !in space.views
    requires grown == space.(reserved := space.reserved[addr := stride]) && Apart(grown.reserved)
    ensures Consistent(outstanding + {Region(addr)}, grown, ms[r := ms[r].(addr := addr)], owner, stride, base, home)
  {
    OwnedReserved(ms, owner, r, addr);
    WithoutGrown(space, grown, Region(addr), Owned(ms, owner));
    ReservedRecords(space, grown, ms, stride, r, addr);
  }

  lemma ReservedRecords(space: Space, grown: Space, ms: seq<Mapping>, stride: nat, r: nat, addr: nat)
    requires Distinct(ms) && forall q :: 0 <= q < |ms| ==> RecordOk(space, ms[q], stride)
    requires r < |ms| && ms[r].addr == 0 && !ms[r].mapped && addr != 0
    requires addr !in space.reserved && addr !in space.views
    requires grown == space.(reserved := space.reserved[addr := stride])
    ensures var ns := ms[r := ms[r].(addr := addr)];
            Distinct(ns) && forall q :: 0 <= q < |ns| ==> RecordOk(grown, ns[q], stride)
  {
    var ns := ms[r := ms[r].(addr := addr)];
    forall q | 0 <= q < |ms| ensures RecordOk(grown, ns[q], stride) && (q != r ==> ns[q].addr != addr) {
      assert RecordOk(space, ms[q], stride);
    }
  }

  lemma HeldConsistent(outstanding: set<Resource>, space: Space, grown: Space, ms: seq<Mapping>, owner: nat,
                       stride: nat, base: set<Resource>, home: Space, r: nat, handle: nat)
    requires Consistent(outstanding, space, ms, owner, stride, base, home)
    requires r < |ms| && ms[r].handle == 0 && handle != 0
    requires Grip(handle) !in outstanding && Added(space, grown, Grip(handle))
    ensures Consistent(outstanding + {Grip(handle)}, grown, ms[r := ms[r].(handle := handle)], owner, stride, base,
                       home)
  {
    OwnedHeld(ms, owner, r, handle);
    WithoutGrown(space, grown, Grip(handle), Owned(ms, owner));
    var ns := ms[r := ms[r].(handle := handle)];
    forall q | 0 <= q < |ms| ensures RecordOk(grown, ns[q], stride) && (q != r ==> ns[q].handle != handle) {
      assert RecordOk(space, ms[q], stride);
    }
  }

  lemma MappedConsistent(outstanding: set<Resource>, space: Space, grown: Space, ms: seq<Mapping>, owner: nat,
                         stride: nat, base: set<Resource>, home: Space, r: nat)
    requires Consistent(outstanding, space, ms, owner, stride, base, home)
    requires r < |ms| && ms[r].addr != 0 && ms[r].handle != 0 && !ms[r].mapped
    requires View(ms[r].addr) !in outstanding
    requires grown == space.(views := space.views[ms[r].addr := (ms[r].handle, stride)])
    ensures Consistent(outstanding + {View(ms[r].addr)}, grown, ms[r := ms[r].(mapped := true)], owner, stride,
                       base, home)
  {
    assert RecordOk(space, ms[r], stride);
    OwnedMapped(ms, owner, r);
    WithoutGrown(space, grown, View(ms[r].addr), Owned(ms, owner));
    MappedRecords(space, grown, ms, stride, r);
  }

  lemma MappedRecords(space: Space, grown: Space, ms: seq<Mapping>, stride: nat, r: nat)
    requires Distinct(ms) && forall q :: 0 <= q < |ms| ==> RecordOk(space, ms[q], stride)
    requires r < |ms| && ms[r].addr != 0 && ms[r].handle != 0
    requires grown == space.(views := space.views[ms[r].addr := (ms[r].handle, stride)])
    ensures var ns := ms[r := ms[r].(mapped := true)];
            Distinct(ns) && forall q :: 0 <= q < |ns| ==> RecordOk(grown, ns[q], stride)
  {
    var ns := ms[r := ms[r].(mapped := true)];
    forall q | 0 <= q < |ms| ensures RecordOk(grown, ns[q], stride) {
      assert RecordOk(space, ms[q], stride);
      assert q != r ==> ms[q].addr == 0 || ms[q].addr != ms[r].addr;
    }
  }

  /** Huge pages as long as no call has been refused. */
  function LastPages(refusals0: nat, refusals: nat): PageType {
    if refusals == refusals0 then Huge else Normal
  }

  /** Huge pages have been asked for first, and normal ones only after a call of that attempt was refused. */
  predicate AttemptsAsked(asked0: seq<PageType>, asked: seq<PageType>, tried: seq<Mapping>, refusals0: nat,
                          refusals: nat)
  {
    || (asked == asked0 + [Huge] && tried == [] && refusals <= refusals0 + 1)
    || (asked == asked0 + [Huge, Normal] && refusals > refusals0)
  }

  class Strategy {
    const driver: Driver
    var slotSize: nat
    var nSlotsPerRank: nat
    var mappings: seq<Mapping>
    var owner: nat
    var deviceId: int
    var rankStride: nat

    constructor (driver: Driver)
      ensures this.driver == driver && Idle()
    {
      this.driver := driver;
      slotSize, nSlotsPerRank, mappings, owner, deviceId, rankStride := 0, 0, [], 0, -1, 0;
    }

    ghost predicate Holds(base: set<Resource>, home: Space)
      reads this`mappings, this`owner, this`rankStride, driver`outstanding, driver`space
    {
      Consistent(driver.outstanding, driver.space, mappings, owner, rankStride, base, home)
    }

    /* ---- giving back ---- */

    /** In the middle of `Reset`: `rest` is still to be given back. */
    ghost predicate InReset(base: set<Resource>, home: Space, rest: set<Resource>, failures0: nat)
      reads driver`outstanding, driver`space, driver`failures
    {
      && driver.outstanding == base + rest
      && base !! rest
      && Apart(driver.space.reserved)
      && driver.failures >= failures0
      && (driver.failures == failures0 ==> Without(driver.space, rest) == home)
    }

    method Attempt(x: Resource, ghost base: set<Resource>, ghost home: Space, ghost rest: set<Resource>,
                   ghost failures0: nat)
      requires InReset(base, home, rest + {x}, failures0) && x !in rest
      modifies driver`space, driver`outstanding, driver`log, driver`failures
      ensures InReset(base, home, rest, failures0)
      ensures driver.log == old(driver.log) + [x]
    {
      WithoutNext(driver.space, x, rest);
      var status := driver.GiveBack(x);
    }

    method UnmapAll(ms: seq<Mapping>, ghost base: set<Resource>, ghost home: Space, ghost others: set<Resource>,
                    ghost failures0: nat)
      requires InReset(base, home, ViewsFrom(ms, 0) + others, failures0)
      requires Distinct(ms) && forall r :: 0 <= r < |ms| && ms[r].mapped ==> ms[r].addr != 0
      requires forall x :: x in others ==> !x.View?
      modifies driver`space, driver`outstanding, driver`log, driver`failures
      ensures InReset(base, home, others, failures0)
      ensures driver.log == old(driver.log) + Unmaps(ms, |ms|)
    {
      var rank := 0;
      while rank < |ms|
        invariant rank <= |ms|
        invariant InReset(base, home, ViewsFrom(ms, rank) + others, failures0)
        invariant driver.log == old(driver.log) + Unmaps(ms, rank)
      {
        if ms[rank].mapped {
          assert View(ms[rank].addr) !in ViewsFrom(ms, rank + 1);
          assert ViewsFrom(ms, rank) + others == (ViewsFrom(ms, rank + 1) + others) + {View(ms[rank].addr)};
          Attempt(View(ms[rank].addr), base, home, ViewsFrom(ms, rank + 1) + others, failures0);
        } else {
          assert ViewsFrom(ms, rank) == ViewsFrom(ms, rank + 1);
        }
        rank := rank + 1;
      }
      assert ViewsFrom(ms, rank) + others == others;
    }

    method ReleasePeers(ms: seq<Mapping>, ghost base: set<Resource>, ghost home: Space,
                        ghost others: set<Resource>, ghost failures0: nat)
      requires InReset(base, home, GripsFrom(ms, 0, owner) + others, failures0)
      requires Distinct(ms)
      requires forall r :: 0 <= r < |ms| && r != owner && ms[r].handle != 0 ==> Grip(ms[r].handle) !in others
      modifies driver`space, driver`outstanding, driver`log, driver`failures
      ensures InReset(base, home, others, failures0)
      ensures driver.log == old(driver.log) + PeerReleases(ms, owner, |ms|)
    {
      var rank := 0;
      while rank < |ms|
        invariant rank <= |ms|
        invariant InReset(base, home, GripsFrom(ms, rank, owner) + others, failures0)
        invariant driver.log == old(driver.log) + PeerReleases(ms, owner, rank)
      {
        GripsNext(ms, rank, owner);
        if rank != owner && ms[rank].handle != 0 {
          assert GripsFrom(ms, rank, owner) + others
            == (GripsFrom(ms, rank + 1, owner) + others) + {Grip(ms[rank].handle)};
          Attempt(Grip(ms[rank].handle), base, home, GripsFrom(ms, rank + 1, owner) + others, failures0);
        }
        rank := rank + 1;
      }
      assert GripsFrom(ms, rank, owner) + others == others;
    }

    method ReleaseOwner(ms: seq<Mapping>, ghost base: set<Resource>, ghost home: Space,
                        ghost regions: set<Resource>, ghost failures0: nat)
      requires InReset(base, home, OwnGrip(ms, owner) + regions, failures0)
      requires forall x :: x in regions ==> x.Region?
      modifies driver`space, driver`outstanding, driver`log, driver`failures
      ensures InReset(base, home, regions, failures0)
      ensures driver.log == old(driver.log) + OwnRelease(ms, owner)
    {
      if owner < |ms| && ms[owner].handle != 0 {
        assert OwnGrip(ms, owner) + regions == regions + {Grip(ms[owner].handle)};
        Attempt(Grip(ms[owner].handle), base, home, regions, failures0);
      } else {
        assert OwnGrip(ms, owner) + regions == regions;
      }
    }

    method FreeAll(ms: seq<Mapping>, ghost base: set<Resource>, ghost home: Space, ghost failures0: nat)
      requires InReset(base, home, RegionsFrom(ms, 0), failures0)
      requires Distinct(ms)
      modifies driver`space, driver`outstanding, driver`log, driver`failures
      ensures InReset(base, home, {}, failures0)
      ensures driver.log == old(driver.log) + Frees(ms, |ms|)
    {
      var rank := 0;
      while rank < |ms|
        invariant rank <= |ms|
        invariant InReset(base, home, RegionsFrom(ms, rank), failures0)
        invariant driver.log == old(driver.log) + Frees(ms, rank)
      {
        if ms[rank].addr != 0 {
          assert Region(ms[rank].addr) !in RegionsFrom(ms, rank + 1);
          assert RegionsFrom(ms, rank) == RegionsFrom(ms, rank + 1) + {Region(ms[rank].addr)};
          Attempt(Region(ms[rank].addr), base, home, RegionsFrom(ms, rank + 1), failures0);
        } else {
          assert RegionsFrom(ms, rank) == RegionsFrom(ms, rank + 1);
        }
        rank := rank + 1;
      }
      assert RegionsFrom(ms, rank) == {};
    }

    /** The four passes. */
    method GiveAllBack(ms: seq<Mapping>, ghost base: set<Resource>, ghost home: Space, ghost failures0: nat)
      requires InReset(base, home, Owned(ms, owner), failures0)
      requires Distinct(ms) && forall r :: 0 <= r < |ms| && ms[r].mapped ==> ms[r].addr != 0
      requires forall x :: x in GripsFrom(ms, 0, owner) + OwnGrip(ms, owner) + RegionsFrom(ms, 0) ==> !x.View?
      requires forall x :: x in RegionsFrom(ms, 0) ==> x.Region?
      requires forall r :: 0 <= r < |ms| && r != owner && ms[r].handle != 0 ==>
                 Grip(ms[r].handle) !in OwnGrip(ms, owner) + RegionsFrom(ms, 0)
      modifies driver`space, driver`outstanding, driver`log, driver`failures
      ensures InReset(base, home, {}, failures0)
      ensures driver.log == old(driver.log) + ResetLog(ms, owner)
    {
      ghost var own, regions := OwnGrip(ms, owner), RegionsFrom(ms, 0);
      UnmapAll(ms, base, home, GripsFrom(ms, 0, owner) + own + regions, failures0);
      assert GripsFrom(ms, 0, owner) + own + regions == GripsFrom(ms, 0, owner) + (own + regions);
      ReleasePeers(ms, base, home, own + regions, failures0);
      ReleaseOwner(ms, base, home, regions, failures0);
      FreeAll(ms, base, home, failures0);
    }

    /** Gives everything back, once, whether or not the calls succeed. */
    method Reset(ghost base: set<Resource>, ghost home: Space)
      requires Holds(base, home)
      modifies this`mappings, this`rankStride, driver`space, driver`outstanding, driver`log, driver`failures
      ensures mappings == [] && rankStride == 0
      ensures driver.log == old(driver.log) + ResetLog(old(mappings), old(owner))
      ensures driver.outstanding == base && Apart(driver.space.reserved)
      ensures driver.failures >= old(driver.failures)
      ensures driver.failures == old(driver.failures) ==> driver.space == home
    {
      PassesDisjoint(driver.space, mappings, owner, rankStride);
      GiveAllBack(mappings, base, home, driver.failures);
      NothingLeft(driver.space);
      mappings := [];
      rankStride := 0;
    }

    /* ---- acquiring ---- */

    method ReserveRankAddress(rank: nat, ghost base: set<Resource>, ghost home: Space) returns (status: Status)
      requires Holds(base, home)
      requires rank < |mappings| && mappings[rank].addr == 0 && !mappings[rank].mapped
      modifies this`mappings, driver`space, driver`outstanding, driver`refusals
      ensures status != Error(TIMEOUT)
      ensures driver.refusals == (old(driver.refusals) + if status.OK? then 0 else 1)
      ensures Holds(base, home)
      ensures |mappings| == |old(mappings)|
      ensures forall r :: 0 <= r < |mappings| && r != rank ==> mappings[r] == old(mappings)[r]
      ensures mappings[rank] == old(mappings)[rank].(addr := mappings[rank].addr)
      ensures status.OK? ==> mappings[rank].addr != 0
      ensures driver.space.handles == old(driver.space.handles) && driver.space.views == old(driver.space.views)
      ensures forall b :: b in old(driver.space.reserved) ==>
                b in driver.space.reserved && driver.space.reserved[b] == old(driver.space.reserved)[b]
    {
      var addr: nat;
      status, addr := driver.Reserve(rankStride);
      if status.Error? {
        return;
      }
      if addr == 0 {
        return Error(ERROR);
      }
      ReservedConsistent(old(driver.outstanding), old(driver.space), driver.space, mappings, owner, rankStride,
                         base, home, rank, addr);
      mappings := mappings[rank := mappings[rank].(addr := addr)];
    }

    /** The physical memory rank `r` is mapped to. */
    function MemoryOf(r: nat): nat
      reads this`mappings, driver`space
    {
      if r < |mappings| && mappings[r].handle in driver.space.handles then driver.space.handles[mappings[r].handle]
        else 0
    }

    /** Rank `r` is mapped, no further than its memory reaches. */
    predicate RankReady(r: nat)
      reads this`mappings, this`rankStride, driver`space
    {
      && r < |mappings| && Denotes(driver.space, mappings[r], MemoryOf(r))
      && rankStride <= driver.host.extent(MemoryOf(r))
    }

    /** The own memory is mapped, and as large as the mapping. */
    predicate OwnReady()
      reads this`mappings, this`owner, this`rankStride, driver`space
    {
      RankReady(owner) && driver.host.extent(MemoryOf(owner)) == rankStride
    }

    /** Every peer is mapped; if descriptors arrive faithfully, to what that peer published. */
    ghost predicate PeersReady(ctrl: CtrlLayout.Control, ranks: nat, faithful: bool)
      reads this`mappings, this`owner, this`rankStride, driver`space
    {
      AllReach(driver.space, mappings, owner, driver.host, rankStride, ctrl.desc, ranks, faithful)
    }

    /** The own memory consists of pages of that kind, and the stride is what their granularity leads to. */
    predicate OwnPages(pageType: PageType, dataBytes: nat)
      reads this`mappings, this`owner, this`rankStride, driver`space
    {
      driver.host.pages(MemoryOf(owner)) == pageType &&
      StrideFor(driver.host.granularity(pageType), rankStride, dataBytes)
    }

    /** Allocates and maps the own memory; `threw` marks an exception, which is not retried. Nothing but one
        refused call makes it fail. */
    method LocalSetup(dataBytes: nat, nRanks: nat, pageType: PageType, ghost base: set<Resource>, ghost home: Space)
      returns (status: Status, threw: bool)
      requires Holds(base, home) && mappings == [] && owner < nRanks && dataBytes < WORD
      modifies this`mappings, this`rankStride, driver`space, driver`outstanding, driver`refusals, driver`asked,
        driver.host
      ensures status != Error(TIMEOUT)
      ensures Holds(base, home)
      ensures Extends(driver.host.creator, old(driver.host.creator))
      ensures status.OK? ==>
        !threw && |mappings| == nRanks && OwnReady() && driver.Made(old(driver.host.creator), MemoryOf(owner))
      ensures status.OK? ==> OthersEmpty(mappings, owner)
      ensures status.OK? ==> OwnPages(pageType, dataBytes)
      ensures driver.refusals == (old(driver.refusals) + if status.OK? then 0 else 1)
      ensures driver.asked == old(driver.asked) + [pageType]
      ensures threw ==> status == Error(OUT_OF_MEMORY)
    {
      threw := false;
      var g: nat;
      status, g := driver.Granularity(pageType);
      if status.Error? {
        return;
      }
      if g == 0 {
        return Error(ERROR), false;
      }
      rankStride := RankStride(dataBytes, g);
      status := driver.Room();
      if status.Error? {
        return status, true;
      }
      ghost var own;
      status, own := AllocateFirst(nRanks, pageType, base, home);
    }

    /** The own rank is mapped to `own`, whose size is the stride. */
    ghost predicate OwnIs(own: nat)
      reads this`mappings, this`owner, this`rankStride, driver`space
    {
      owner < |mappings| && Denotes(driver.space, mappings[owner], own) && driver.host.extent(own) == rankStride
    }

    /** `own` is memory with the right pages that this process has just created. */
    ghost predicate IsNew(own: nat, pageType: PageType, before: map<nat, nat>)
      reads driver.host
    {
      driver.Made(before, own) && driver.host.pages(own) == pageType
    }

    /** Reserve, create and map the own memory, with records for all ranks. */
    method AllocateFirst(nRanks: nat, pageType: PageType, ghost base: set<Resource>, ghost home: Space)
      returns (status: Status, ghost own: nat)
      requires Holds(base, home) && owner < nRanks && mappings == []
      modifies this`mappings, driver`space, driver`outstanding, driver`refusals, driver.host
      ensures status != Error(TIMEOUT)
      ensures driver.refusals == (old(driver.refusals) + if status.OK? then 0 else 1)
      ensures Holds(base, home) && Extends(driver.host.creator, old(driver.host.creator))
      ensures status.OK? ==> OwnIs(own) && IsNew(own, pageType, old(driver.host.creator))
      ensures status.OK? ==> |mappings| == nRanks && OthersEmpty(mappings, owner)
    {
      own := 0;
      mappings := seq(nRanks, _ => EMPTY);
      OwnedEmpty([], owner);
      OwnedEmpty(mappings, owner);
      status := ReserveRankAddress(owner, base, home);
      if status.OK? {
        status, own := CreateAndMap(pageType, base, home);
      }
    }

    /** Create and map the own memory at the reserved address. */
    method CreateAndMap(pageType: PageType, ghost base: set<Resource>, ghost home: Space)
      returns (status: Status, ghost own: nat)
      requires Holds(base, home) && owner < |mappings|
      requires mappings[owner].addr != 0 && mappings[owner].handle == 0 && !mappings[owner].mapped
      modifies this`mappings, driver`space, driver`outstanding, driver`refusals, driver.host
      ensures status != Error(TIMEOUT)
      ensures driver.refusals == (old(driver.refusals) + if status.OK? then 0 else 1)
      ensures Holds(base, home) && Extends(driver.host.creator, old(driver.host.creator))
      ensures status.OK? ==> OwnIs(own) && IsNew(own, pageType, old(driver.host.creator))
      ensures status.OK? ==> |mappings| == |old(mappings)|
      ensures status.OK? ==> forall r :: 0 <= r < |mappings| && r != owner ==> mappings[r] == old(mappings)[r]
    {
      hide Consistent;
      status, own := CreateOwn(pageType, base, home);
      if status.OK? {
        status := MapRank(owner, base, home);
      }
    }

    /** Allocates the own physical memory. */
    method CreateOwn(pageType: PageType, ghost base: set<Resource>, ghost home: Space)
      returns (status: Status, ghost own: nat)
      requires Holds(base, home) && owner < |mappings| && mappings[owner].handle == 0
      modifies this`mappings, driver`space, driver`outstanding, driver`refusals, driver.host
      ensures status != Error(TIMEOUT)
      ensures driver.refusals == (old(driver.refusals) + if status.OK? then 0 else 1)
      ensures Holds(base, home) && Extends(driver.host.creator, old(driver.host.creator))
      ensures status.OK? ==>
                && |mappings| == |old(mappings)|
                && mappings[owner].handle != 0 && mappings[owner].handle in driver.space.handles
                && driver.space.handles[mappings[owner].handle] == own && driver.host.extent(own) == rankStride
                && mappings == old(mappings)[owner := old(mappings)[owner].(handle := mappings[owner].handle)]
      ensures status.OK? ==> IsNew(own, pageType, old(driver.host.creator))
    {
      own := 0;
      var handle: nat;
      status, handle := driver.Create(rankStride, pageType);
      if status.OK? {
        own := driver.space.handles[handle];
        HeldConsistent(old(driver.outstanding), old(driver.space), driver.space, mappings, owner, rankStride,
                       base, home, owner, handle);
        mappings := mappings[owner := mappings[owner].(handle := handle)];
      }
    }

    /** Maps a rank's handle at its reserved address. */
    method MapRank(rank: nat, ghost base: set<Resource>, ghost home: Space) returns (status: Status)
      requires Holds(base, home) && rank < |mappings|
      requires mappings[rank].addr != 0 && mappings[rank].handle != 0 && !mappings[rank].mapped
      modifies this`mappings, driver`space, driver`outstanding, driver`refusals
      ensures status != Error(TIMEOUT)
      ensures driver.refusals == (old(driver.refusals) + if status.OK? then 0 else 1)
      ensures Holds(base, home)
      ensures status.Error? ==> mappings == old(mappings)
      ensures status.OK? ==> mappings == old(mappings)[rank := old(mappings)[rank].(mapped := true)] && RankReady(rank)
      ensures driver.space.handles == old(driver.space.handles)
    {
      assert RecordOk(driver.space, mappings[rank], rankStride);
      status := driver.Map(mappings[rank].addr, rankStride, mappings[rank].handle);
      if status.OK? {
        MappedConsistent(old(driver.outstanding), old(driver.space), driver.space, mappings, owner, rankStride,
                         base, home, rank);
        mappings := mappings[rank := mappings[rank].(mapped := true)];
      }
    }

    /** One peer: import its handle, reserve, map. */
    method ImportRank(rank: nat, share: nat, ghost base: set<Resource>, ghost home: Space) returns (status: Status)
      requires Holds(base, home) && rank < |mappings| && mappings[rank] == EMPTY
      modifies this`mappings, driver`space, driver`outstanding, driver`refusals, driver`devices
      ensures status != Error(TIMEOUT)
      ensures driver.devices <= old(driver.devices) + {deviceId}
      ensures driver.refusals == (old(driver.refusals) + if status.OK? then 0 else 1)
      ensures Holds(base, home)
      ensures |mappings| == |old(mappings)|
      ensures forall r :: 0 <= r < |mappings| && r != rank ==> mappings[r] == old(mappings)[r]
      ensures forall h :: h in old(driver.space.handles) ==>
                h in driver.space.handles && driver.space.handles[h] == old(driver.space.handles)[h]
      ensures status.OK? ==>
                && Denotes(driver.space, mappings[rank], driver.host.target(share))
                && rankStride <= driver.host.extent(driver.host.target(share))
    {
      var handle: nat;
      status, handle := driver.Import(share, deviceId);
      if status.Error? {
        return;
      }
      HeldConsistent(old(driver.outstanding), old(driver.space), driver.space, mappings, owner, rankStride,
                     base, home, rank, handle);
      mappings := mappings[rank := mappings[rank].(handle := handle)];
      status := PlaceRank(rank, base, home);
    }

    /** Reserves an address for a rank whose handle is known, and maps it there. */
    method PlaceRank(rank: nat, ghost base: set<Resource>, ghost home: Space) returns (status: Status)
      requires Holds(base, home) && rank < |mappings|
      requires mappings[rank].addr == 0 && mappings[rank].handle != 0 && !mappings[rank].mapped
      modifies this`mappings, driver`space, driver`outstanding, driver`refusals
      ensures status != Error(TIMEOUT)
      ensures driver.refusals == (old(driver.refusals) + if status.OK? then 0 else 1)
      ensures Holds(base, home)
      ensures |mappings| == |old(mappings)| && mappings[rank].handle == old(mappings)[rank].handle
      ensures forall r :: 0 <= r < |mappings| && r != rank ==> mappings[r] == old(mappings)[r]
      ensures driver.space.handles == old(driver.space.handles)
      ensures status.OK? ==> RankReady(rank)
    {
      status := ReserveRankAddress(rank, base, home);
      if status.Error? {
        return;
      }
      status := MapRank(rank, base, home);
    }

    /** Repeats reading a peer's descriptor until there is one, the deadline passes, or it throws. */
    method AwaitDesc(ctrl: CtrlLayout.Control, clock: Clock, rank: nat, deadline: nat, ghost faithful: bool)
      returns (reply: CtrlLayout.Result<nat>)
      requires faithful ==> ctrl.Faithful()
      modifies clock, ctrl`input
      ensures clock.now >= old(clock.now) && (faithful ==> ctrl.Faithful())
      ensures faithful && reply.Ok? ==> rank < |ctrl.desc| && reply.value == ctrl.desc[rank]
      ensures reply.OutOfRange? ==> clock.now >= deadline && rank >= ctrl.rankCount
      ensures reply.InputClosed? ==> ctrl.input == []
    {
      reply := ctrl.GetRankDesc(rank);
      while reply.OutOfRange?
        invariant clock.now >= old(clock.now) && (faithful ==> ctrl.Faithful())
        invariant faithful && reply.Ok? ==> rank < |ctrl.desc| && reply.value == ctrl.desc[rank]
        invariant reply.OutOfRange? ==> rank >= ctrl.rankCount
        invariant reply.InputClosed? ==> ctrl.input == []
        decreases if reply.OutOfRange? then 1 else 0, deadline - clock.now
      {
        var now := clock.Read();
        if now >= deadline {
          break;
        }
        clock.SleepUntil(if deadline < now + 10 then deadline else now + 10);
        now := clock.Read();
        if now >= deadline {
          break;
        }
        reply := ctrl.GetRankDesc(rank);
      }
    }

    /** Why importing the peers up to rank `ranks` can fail: a call has been refused, the descriptors have
        come to an end, or there is a rank that the control layout does not know, until the deadline. */
    ghost predicate Blocked(ctrl: CtrlLayout.Control, ranks: nat, refusals0: nat)
      reads driver`refusals, ctrl`input
    {
      driver.refusals == refusals0 + 1 || (driver.refusals == refusals0 && (ctrl.input == [] || ranks > ctrl.rankCount))
    }

    /** One round of the loop over the peers. */
    method SetupPeer(ctrl: CtrlLayout.Control, clock: Clock, deadline: nat, rank: nat, ghost base: set<Resource>,
                     ghost home: Space, ghost faithful: bool)
      returns (status: Status, threw: bool)
      requires Holds(base, home) && rank < |mappings| && mappings[rank] == EMPTY
      requires faithful ==> ctrl.Faithful()
      modifies this`mappings, driver`space, driver`outstanding, driver`refusals, driver`devices, clock, ctrl`input
      ensures clock.now >= old(clock.now) && (status == Error(TIMEOUT) ==> clock.now >= deadline)
      ensures driver.devices <= old(driver.devices) + {deviceId}
      ensures status.OK? ==> driver.refusals == old(driver.refusals)
      ensures status.Error? ==> Blocked(ctrl, rank + 1, old(driver.refusals))
      ensures Holds(base, home) && (faithful ==> ctrl.Faithful())
      ensures |mappings| == |old(mappings)|
      ensures forall r :: 0 <= r < |mappings| && r != rank ==> mappings[r] == old(mappings)[r]
      ensures forall h :: h in old(driver.space.handles) ==>
                h in driver.space.handles && driver.space.handles[h] == old(driver.space.handles)[h]
      ensures status.OK? ==> Reaches(driver.space, mappings[rank], driver.host, rankStride, ctrl.desc, rank, faithful)
    {
      threw := false;
      var reply := AwaitDesc(ctrl, clock, rank, deadline, faithful);
      match reply
      case InputClosed => return Error(ERROR), true;
      case OutOfRange => return Error(TIMEOUT), false;
      case Ok(peer) => status := ImportRank(rank, peer, base, home);
    }

    /** The same for the next rank, whether a peer or the own one. */
    method SetupNext(ctrl: CtrlLayout.Control, clock: Clock, deadline: nat, rank: nat,
                     ghost base: set<Resource>, ghost home: Space, ghost faithful: bool)
      returns (status: Status, threw: bool)
      requires Holds(base, home) && rank < |mappings| && (rank != owner ==> mappings[rank] == EMPTY)
      requires (faithful ==> ctrl.Faithful()) && PeersReady(ctrl, rank, faithful)
      modifies this`mappings, driver`space, driver`outstanding, driver`refusals, driver`devices, clock, ctrl`input
      ensures clock.now >= old(clock.now) && (status == Error(TIMEOUT) ==> clock.now >= deadline)
      ensures driver.devices <= old(driver.devices) + {deviceId}
      ensures status.OK? ==> driver.refusals == old(driver.refusals)
      ensures status.Error? ==> Blocked(ctrl, rank + 1, old(driver.refusals))
      ensures Holds(base, home) && (faithful ==> ctrl.Faithful())
      ensures |mappings| == |old(mappings)|
      ensures forall r :: 0 <= r < |mappings| && (r != rank || r == owner) ==> mappings[r] == old(mappings)[r]
      ensures forall h :: h in old(driver.space.handles) ==>
                h in driver.space.handles && driver.space.handles[h] == old(driver.space.handles)[h]
      ensures status.OK? ==> PeersReady(ctrl, rank + 1, faithful)
    {
      ghost var space, ms := driver.space, mappings;
      status, threw := OK, false;
      if rank != owner {
        status, threw := SetupPeer(ctrl, clock, deadline, rank, base, home, faithful);
      }
      if status.OK? {
        ReachesMore(space, driver.space, ms, mappings, owner, driver.host, rankStride, ctrl.desc, rank, faithful);
      }
    }

    /** Every peer from rank 0 on. */
    method ImportPeers(ctrl: CtrlLayout.Control, clock: Clock, deadline: nat, ghost base: set<Resource>,
                       ghost home: Space, ghost faithful: bool)
      returns (status: Status, threw: bool)
      requires Holds(base, home) && OwnReady()
      requires OthersEmpty(mappings, owner)
      requires faithful ==> ctrl.Faithful()
      modifies this`mappings, driver`space, driver`outstanding, driver`refusals, driver`devices, clock, ctrl`input
      ensures clock.now >= old(clock.now) && (status == Error(TIMEOUT) ==> clock.now >= deadline)
      ensures driver.devices <= old(driver.devices) + {deviceId}
      ensures status.OK? ==> driver.refusals == old(driver.refusals)
      ensures status.Error? ==> Blocked(ctrl, |mappings|, old(driver.refusals))
      ensures Holds(base, home) && |mappings| == |old(mappings)|
      ensures status.OK? ==> OwnReady() && MemoryOf(owner) == old(MemoryOf(owner))
      ensures status.OK? ==> PeersReady(ctrl, |mappings|, faithful)
    {
      status, threw := OK, false;
      ghost var own := MemoryOf(owner);
      var rank := 0;
      while rank < |mappings|
        invariant rank <= |mappings| == |old(mappings)|
        invariant Holds(base, home) && status.OK? && (faithful ==> ctrl.Faithful())
        invariant clock.now >= old(clock.now)
        invariant driver.refusals == old(driver.refusals) && driver.devices <= old(driver.devices) + {deviceId}
        invariant owner < |mappings| && Denotes(driver.space, mappings[owner], own)
        invariant PeersReady(ctrl, rank, faithful)
        invariant forall r :: rank <= r < |mappings| && r != owner ==> mappings[r] == EMPTY
      {
        status, threw := SetupNext(ctrl, clock, deadline, rank, base, home, faithful);
        if status.Error? {
          return;
        }
        rank := rank + 1;
      }
    }

    /** Publishes the own handle, then imports and maps every peer's. */
    method CrossRankSetup(ctrl: CtrlLayout.Control, clock: Clock, timeoutMs: nat, ghost base: set<Resource>,
                          ghost home: Space)
      returns (status: Status, threw: bool, ghost share: nat)
      requires Holds(base, home) && OwnReady()
      requires OthersEmpty(mappings, owner)
      modifies this`mappings, driver`space, driver`outstanding, driver`refusals, driver`devices,
        driver`importable, ctrl, clock
      ensures status == Error(TIMEOUT) ==> clock.now >= old(clock.now) + timeoutMs
      ensures driver.devices <= old(driver.devices) + {deviceId}
      ensures ctrl.published == old(ctrl.published) ||
        (ctrl.published == old(ctrl.published) + [CtrlLayout.Line(owner, share)] && share in driver.importable)
      ensures status.OK? ==> driver.refusals == old(driver.refusals)
      ensures status.Error? ==> Blocked(ctrl, |mappings|, old(driver.refusals))
      ensures Holds(base, home) && |mappings| == |old(mappings)|
      ensures status.OK? ==>
                && OwnReady() && MemoryOf(owner) == old(MemoryOf(owner))
                && PeersReady(ctrl, |mappings|, old(ctrl.Faithful()))
                && ctrl.published == old(ctrl.published) + [CtrlLayout.Line(owner, share)]
                && share < WORD && driver.host.target(share) == MemoryOf(owner)
    {
      threw, share := false, 0;
      ghost var faithful := ctrl.Faithful();
      var start := clock.Read();
      var handle: nat;
      status, handle := driver.Export(mappings[owner].handle);
      if status.Error? {
        return;
      }
      share := handle;
      status := driver.DisableWhitelist(handle);
      if status.Error? {
        return;
      }
      var posted := ctrl.SetRankDesc(owner, handle);
      if !posted.Ok? {
        return Error(INVALID_PARAM), false, share;
      }
      status, threw := ImportPeers(ctrl, clock, start + timeoutMs, base, home, faithful);
    }

    /** Nothing is held, recorded or owed but what was there before. */
    ghost predicate Idle()
      reads this`nSlotsPerRank, this`mappings
    {
      nSlotsPerRank == 0 && mappings == []
    }

    /** Everything a successful set-up promises about the slots. */
    ghost predicate Ready(ctrl: CtrlLayout.Control, myRank: nat, slotSize: nat, nSlotsPerRank: nat, faithful: bool)
      reads this, driver
    {
      && this.nSlotsPerRank == nSlotsPerRank > 0 && this.slotSize == slotSize && owner == myRank
      && Complete(ctrl, slotSize * nSlotsPerRank % WORD, ctrl.slotCount / nSlotsPerRank, faithful)
    }

    ghost predicate Complete(ctrl: CtrlLayout.Control, dataBytes: nat, nRanks: nat, faithful: bool)
      reads this`mappings, this`owner, this`rankStride, driver`space
    {
      && |mappings| == nRanks && owner < nRanks
      && StrideOk(driver.host, rankStride, dataBytes)
      && OwnReady() && PeersReady(ctrl, nRanks, faithful)
    }

    /** `share` is the descriptor of the own memory, and nobody else has created that memory. */
    ghost predicate Shares(share: nat)
      reads this`mappings, this`owner, driver`space, driver.host
    {
      && share < WORD && driver.host.target(share) == MemoryOf(owner)
      && MemoryOf(owner) in driver.host.creator && driver.host.creator[MemoryOf(owner)] == driver.process
    }

    /** Gives everything back and tries normal pages. */
    method SecondAttempt(dataBytes: nat, nRanks: nat, ghost base: set<Resource>, ghost home: Space)
      returns (status: Status, threw: bool, ghost home': Space, ghost tried: seq<Mapping>)
      requires Holds(base, home) && owner < nRanks && dataBytes < WORD
      modifies this`mappings, this`rankStride, driver`space, driver`outstanding, driver.host, driver`log,
        driver`failures, driver`refusals, driver`asked
      ensures status != Error(TIMEOUT)
      ensures Holds(base, home') && tried == old(mappings)
      ensures driver.failures >= old(driver.failures)
      ensures driver.failures == old(driver.failures) ==> home' == home
      ensures driver.log == old(driver.log) + ResetLog(tried, owner)
      ensures Extends(driver.host.creator, old(driver.host.creator))
      ensures status.OK? ==> !threw && |mappings| == nRanks && OwnReady()
      ensures status.OK? ==> driver.Made(old(driver.host.creator), MemoryOf(owner))
      ensures status.OK? ==> OthersEmpty(mappings, owner)
      ensures driver.refusals == (old(driver.refusals) + if status.OK? then 0 else 1)
      ensures driver.asked == old(driver.asked) + [Normal]
      ensures status.OK? ==> OwnPages(Normal, dataBytes)
    {
      tried := mappings;
      Reset(base, home);
      home' := driver.space;
      EmptyConsistent(driver.space, owner, rankStride, base);
      status, threw := LocalSetup(dataBytes, nRanks, Normal, base, home');
    }

    /** Huge pages first; any failure that is not an exception is retried with normal pages after
        everything has been given back. `home` becomes what the process holds besides this object,
        `tried` is what the first attempt had got hold of, if it was given back. */
    method LocalWithRetry(dataBytes: nat, nRanks: nat, ghost base: set<Resource>, ghost home: Space)
      returns (status: Status, threw: bool, ghost home': Space, ghost tried: seq<Mapping>)
      requires Holds(base, home) && mappings == [] && owner < nRanks && dataBytes < WORD
      modifies this`mappings, this`rankStride, driver`space, driver`outstanding, driver.host, driver`log,
        driver`failures, driver`refusals, driver`asked
      ensures status != Error(TIMEOUT)
      ensures Holds(base, home')
      ensures driver.failures >= old(driver.failures)
      ensures driver.failures == old(driver.failures) ==> home' == home
      ensures driver.log == old(driver.log) + ResetLog(tried, owner)
      ensures Extends(driver.host.creator, old(driver.host.creator))
      ensures status.OK? ==> !threw && |mappings| == nRanks && OwnReady()
      ensures status.OK? ==> driver.Made(old(driver.host.creator), MemoryOf(owner))
      ensures status.OK? ==> OthersEmpty(mappings, owner)
      ensures driver.refusals >= old(driver.refusals)
      ensures AttemptsAsked(old(driver.asked), driver.asked, tried, old(driver.refusals), driver.refusals)
      ensures status.Error? && !threw ==> driver.refusals == old(driver.refusals) + 2
      ensures status.Error? && !threw ==> driver.asked == old(driver.asked) + [Huge, Normal]
      ensures status.Error? ==> driver.refusals > old(driver.refusals)
      ensures status.OK? ==> OwnPages(LastPages(old(driver.refusals), driver.refusals), dataBytes)
    {
      hide Consistent;
      home', tried := home, [];
      status, threw := LocalSetup(dataBytes, nRanks, Huge, base, home);
      if status.Error? && !threw {
        status, threw, home', tried := SecondAttempt(dataBytes, nRanks, base, home);
      }
    }

    /** Why a set-up can fail: a call has been refused, or importing the peers has been blocked otherwise. */
    ghost predicate Obstructed(ctrl: CtrlLayout.Control, nRanks: nat, refusals0: nat)
      reads driver`refusals, ctrl`input
    {
      driver.refusals > refusals0 || ctrl.input == [] || nRanks > ctrl.rankCount
    }

    /** `CrossRankSetup` once the own memory is there: it stays as it was, new and nobody else's. */
    method Join(ctrl: CtrlLayout.Control, clock: Clock, dataBytes: nat, nRanks: nat, timeoutMs: nat,
                ghost base: set<Resource>, ghost home: Space, ghost before: map<nat, nat>, ghost pages: PageType,
                ghost refusals0: nat)
      returns (status: Status, ghost share: nat)
      requires Holds(base, home) && OwnReady() && driver.Made(before, MemoryOf(owner)) && OwnPages(pages, dataBytes)
      requires owner < |mappings| == nRanks && driver.refusals >= refusals0
      requires OthersEmpty(mappings, owner)
      modifies this`mappings, driver`space, driver`outstanding, driver`refusals, driver`devices,
        driver`importable, ctrl, clock
      ensures status == Error(TIMEOUT) ==> clock.now >= old(clock.now) + timeoutMs
      ensures driver.devices <= old(driver.devices) + {deviceId}
      ensures ctrl.published == old(ctrl.published) ||
        (ctrl.published == old(ctrl.published) + [CtrlLayout.Line(owner, share)] && share in driver.importable)
      ensures Holds(base, home) && |mappings| == |old(mappings)|
      ensures status.OK? ==> driver.refusals == old(driver.refusals) && OwnPages(pages, dataBytes)
      ensures status.Error? ==> Obstructed(ctrl, nRanks, refusals0)
      ensures status.OK? ==>
                && Complete(ctrl, dataBytes, nRanks, old(ctrl.Faithful()))
                && Shares(share) && MemoryOf(owner) !in before
                && ctrl.published == old(ctrl.published) + [CtrlLayout.Line(owner, share)]
    {
      ghost var own := MemoryOf(owner);
      var threw;
      status, threw, share := CrossRankSetup(ctrl, clock, timeoutMs, base, home);
      assert status.OK? ==> MemoryOf(owner) == own;
    }

    /** The own memory, then the peers'. */
    method AcquireMemory(ctrl: CtrlLayout.Control, clock: Clock, dataBytes: nat, nRanks: nat, timeoutMs: nat,
                         ghost base: set<Resource>, ghost home: Space)
      returns (status: Status, ghost home': Space, ghost tried: seq<Mapping>, ghost share: nat)
      requires Holds(base, home) && mappings == [] && owner < nRanks && dataBytes < WORD
      modifies this`mappings, this`rankStride, driver`space, driver`outstanding, driver.host, driver`log,
        driver`failures, driver`refusals, driver`devices,
        driver`importable, driver`asked, ctrl, clock
      ensures status == Error(TIMEOUT) ==> clock.now >= old(clock.now) + timeoutMs
      ensures driver.devices <= old(driver.devices) + {deviceId}
      ensures ctrl.published == old(ctrl.published) ||
        (ctrl.published == old(ctrl.published) + [CtrlLayout.Line(owner, share)] && share in driver.importable)
      ensures Holds(base, home')
      ensures driver.failures >= old(driver.failures)
      ensures driver.failures == old(driver.failures) ==> home' == home
      ensures driver.log == old(driver.log) + ResetLog(tried, owner)
      ensures status.Error? ==> Obstructed(ctrl, nRanks, old(driver.refusals))
      ensures status.OK? ==> OwnPages(LastPages(old(driver.refusals), driver.refusals), dataBytes)
      ensures status.OK? ==>
        AttemptsAsked(old(driver.asked), driver.asked, tried, old(driver.refusals), driver.refusals)
      ensures Extends(driver.host.creator, old(driver.host.creator))
      ensures status.OK? ==>
                && Complete(ctrl, dataBytes, nRanks, old(ctrl.Faithful()))
                && Shares(share) && MemoryOf(owner) !in old(driver.host.creator)
                && ctrl.published == old(ctrl.published) + [CtrlLayout.Line(owner, share)]
    {
      hide Consistent;
      share := 0;
      var threw: bool;
      status, threw, home', tried := LocalWithRetry(dataBytes, nRanks, base, home);
      if status.Error? {
        return;
      }
      ghost var pages := LastPages(old(driver.refusals), driver.refusals);
      status, share := Join(ctrl, clock, dataBytes, nRanks, timeoutMs, base, home', old(driver.host.creator),
                            pages, old(driver.refusals));
    }

    /** The body of the try block in `Setup`. */
    method Acquire(ctrl: CtrlLayout.Control, clock: Clock, dataBytes: nat, nRanks: nat, timeoutMs: nat,
                   ghost base: set<Resource>, ghost home: Space)
      returns (status: Status, ghost home': Space, ghost tried: seq<Mapping>, ghost share: nat)
      requires Holds(base, home) && mappings == [] && owner < nRanks && dataBytes < WORD
      modifies this`mappings, this`rankStride, driver`space, driver`outstanding, driver.host, driver`log,
        driver`failures, driver`refusals, driver`devices,
        driver`importable, driver`asked, ctrl, clock
      ensures status == Error(TIMEOUT) ==> clock.now >= old(clock.now) + timeoutMs
      ensures driver.devices <= old(driver.devices) + {deviceId}
      ensures ctrl.published == old(ctrl.published) ||
        (ctrl.published == old(ctrl.published) + [CtrlLayout.Line(owner, share)] && share in driver.importable)
      ensures Holds(base, home')
      ensures driver.failures >= old(driver.failures)
      ensures driver.failures == old(driver.failures) ==> home' == home
      ensures driver.log == old(driver.log) + ResetLog(tried, owner)
      ensures status.Error? ==> Obstructed(ctrl, nRanks, old(driver.refusals))
      ensures status.OK? ==> OwnPages(LastPages(old(driver.refusals), driver.refusals), dataBytes)
      ensures status.OK? ==>
        AttemptsAsked(old(driver.asked), driver.asked, tried, old(driver.refusals), driver.refusals)
      ensures Extends(driver.host.creator, old(driver.host.creator))
      ensures status.OK? ==>
                && Complete(ctrl, dataBytes, nRanks, old(ctrl.Faithful()))
                && Shares(share) && MemoryOf(owner) !in old(driver.host.creator)
                && ctrl.published == old(ctrl.published) + [CtrlLayout.Line(owner, share)]
    {
      home', tried, share := home, [], 0;
      status := driver.SetUpDevice(deviceId);
      if status.OK? {
        status, home', tried, share := AcquireMemory(ctrl, clock, dataBytes, nRanks, timeoutMs, base, home);
      }
    }

    /** The try block and, if it did not succeed, the roll-back. */
    method AcquireOrReset(ctrl: CtrlLayout.Control, clock: Clock, dataBytes: nat, nRanks: nat, timeoutMs: nat,
                          ghost base: set<Resource>, ghost home: Space)
      returns (status: Status, ghost home': Space, ghost share: nat, ghost tried: seq<Mapping>,
               ghost held: seq<Mapping>)
      requires Holds(base, home) && mappings == [] && owner < nRanks && dataBytes < WORD
      modifies this`mappings, this`rankStride, driver`space, driver`outstanding, driver.host, driver`log,
        driver`failures, driver`refusals, driver`devices,
        driver`importable, driver`asked, ctrl, clock
      ensures status == Error(TIMEOUT) ==> clock.now >= old(clock.now) + timeoutMs
      ensures driver.devices <= old(driver.devices) + {deviceId}
      ensures ctrl.published == old(ctrl.published) ||
        (ctrl.published == old(ctrl.published) + [CtrlLayout.Line(owner, share)] && share in driver.importable)
      ensures status.Error? ==> Obstructed(ctrl, nRanks, old(driver.refusals))
      ensures status.OK? ==> OwnPages(LastPages(old(driver.refusals), driver.refusals), dataBytes)
      ensures status.OK? ==>
        AttemptsAsked(old(driver.asked), driver.asked, tried, old(driver.refusals), driver.refusals)
      ensures Extends(driver.host.creator, old(driver.host.creator))
      ensures status.Error? ==>
                && mappings == [] && driver.outstanding == base
                && driver.log == old(driver.log) + ResetLog(tried, owner) + ResetLog(held, owner)
                && (driver.failures == old(driver.failures) ==> driver.space == home)
      ensures status.OK? ==>
                && Holds(base, home')
                && (driver.failures == old(driver.failures) ==> home' == home)
                && driver.log == old(driver.log) + ResetLog(tried, owner)
                && Complete(ctrl, dataBytes, nRanks, old(ctrl.Faithful()))
                && Shares(share) && MemoryOf(owner) !in old(driver.host.creator)
                && ctrl.published == old(ctrl.published) + [CtrlLayout.Line(owner, share)]
    {
      held := [];
      status, home', tried, share := Acquire(ctrl, clock, dataBytes, nRanks, timeoutMs, base, home);
      if status.Error? {
        held := mappings;
        Reset(base, home');
      }
    }

    /** `Setup` of an object that is not set up, with the sizes worked out. */
    method SetupSized(ctrl: CtrlLayout.Control, clock: Clock, deviceId: int, myRank: nat, dataBytes: nat,
                      nRanks: nat, timeoutMs: nat)
      returns (status: Status, ghost home: Space, ghost share: nat, ghost tried: seq<Mapping>, ghost held: seq<Mapping>)
      requires mappings == [] && Apart(driver.space.reserved) && myRank < nRanks && dataBytes < WORD
      modifies this`mappings, this`rankStride, this`owner, this`deviceId
      modifies driver`space, driver`outstanding, driver.host, driver`log, driver`failures, driver`refusals,
        driver`devices, driver`importable, driver`asked, ctrl, clock
      ensures status == Error(TIMEOUT) ==> clock.now >= old(clock.now) + timeoutMs
      ensures driver.devices <= old(driver.devices) + {deviceId}
      ensures ctrl.published == old(ctrl.published) ||
        (ctrl.published == old(ctrl.published) + [CtrlLayout.Line(myRank, share)] && share in driver.importable)
      ensures status.Error? ==> Obstructed(ctrl, nRanks, old(driver.refusals))
      ensures status.OK? ==> OwnPages(LastPages(old(driver.refusals), driver.refusals), dataBytes)
      ensures status.OK? ==>
        AttemptsAsked(old(driver.asked), driver.asked, tried, old(driver.refusals), driver.refusals)
      ensures owner == myRank && Extends(driver.host.creator, old(driver.host.creator))
      ensures status.Error? ==>
                && mappings == [] && driver.outstanding == old(driver.outstanding)
                && driver.log == old(driver.log) + ResetLog(tried, myRank) + ResetLog(held, myRank)
                && (driver.failures == old(driver.failures) ==> driver.space == old(driver.space))
      ensures status.OK? ==>
                && Holds(old(driver.outstanding), home)
                && (driver.failures == old(driver.failures) ==> home == old(driver.space))
                && driver.log == old(driver.log) + ResetLog(tried, myRank)
                && Complete(ctrl, dataBytes, nRanks, old(ctrl.Faithful()))
                && Shares(share) && MemoryOf(owner) !in old(driver.host.creator)
                && ctrl.published == old(ctrl.published) + [CtrlLayout.Line(myRank, share)]
    {
      ghost var base := driver.outstanding;
      owner, this.deviceId := myRank, deviceId;
      EmptyConsistent(driver.space, owner, rankStride, base);
      status, home, share, tried, held := AcquireOrReset(ctrl, clock, dataBytes, nRanks, timeoutMs, base, driver.space);
    }

    /** Either everything is set up, or everything this call obtained has been given back. On failure the
        attempts to give back are those for `tried`, the first attempt, and then those for `held`, each in
        the order of `Reset`. */
    method Setup(ctrl: CtrlLayout.Control, clock: Clock, deviceId: int, myRank: nat, slotSize: nat,
                 nSlotsPerRank: nat, timeoutMs: nat)
      returns (status: Status, ghost home: Space, ghost share: nat, ghost tried: seq<Mapping>, ghost held: seq<Mapping>)
      requires nSlotsPerRank > 0 && myRank < ctrl.slotCount / nSlotsPerRank
      requires this.nSlotsPerRank == 0 ==> mappings == [] && Apart(driver.space.reserved)
      modifies this, driver`space, driver`outstanding, driver.host, driver`log, driver`failures, driver`refusals,
        driver`devices, driver`importable, driver`asked, ctrl, clock
      ensures status == Error(TIMEOUT) ==> clock.now >= old(clock.now) + timeoutMs
      ensures driver.devices <= old(driver.devices) + {deviceId}
      ensures ctrl.published == old(ctrl.published) ||
        (ctrl.published == old(ctrl.published) + [CtrlLayout.Line(myRank, share)] && share in driver.importable)
      ensures old(this.nSlotsPerRank) == 0 && status.Error? ==>
        Obstructed(ctrl, ctrl.slotCount / nSlotsPerRank, old(driver.refusals))
      ensures status.OK? ==> OwnPages(LastPages(old(driver.refusals), driver.refusals), slotSize * nSlotsPerRank % WORD)
      ensures status.OK? ==>
        AttemptsAsked(old(driver.asked), driver.asked, tried, old(driver.refusals), driver.refusals)
      ensures Extends(driver.host.creator, old(driver.host.creator))
      ensures old(this.nSlotsPerRank) != 0 ==>
                && status.Error? && driver.log == old(driver.log) && mappings == old(mappings)
                && driver.space == old(driver.space) && driver.outstanding == old(driver.outstanding)
      ensures old(this.nSlotsPerRank) == 0 && status.Error? ==> Idle() && driver.outstanding == old(driver.outstanding)
      ensures old(this.nSlotsPerRank) == 0 && status.Error? ==>
                driver.log == old(driver.log) + ResetLog(tried, myRank) + ResetLog(held, myRank)
      ensures old(this.nSlotsPerRank) == 0 && status.Error? && driver.failures == old(driver.failures) ==>
                driver.space == old(driver.space)
      ensures status.OK? ==> Ready(ctrl, myRank, slotSize, nSlotsPerRank, old(ctrl.Faithful()))
      ensures status.OK? ==> Shares(share) && MemoryOf(owner) !in old(driver.host.creator)
      ensures status.OK? ==> driver.log == old(driver.log) + ResetLog(tried, myRank)
      ensures status.OK? ==> Holds(old(driver.outstanding), home)
      ensures status.OK? && driver.failures == old(driver.failures) ==> home == old(driver.space)
      ensures status.OK? ==> ctrl.published == old(ctrl.published) + [CtrlLayout.Line(myRank, share)]
    {
      home, share, tried, held := driver.space, 0, [], [];
      if this.nSlotsPerRank != 0 {
        return Error(ERROR), home, share, tried, held;
      }
      var dataBytes, nRanks := slotSize * nSlotsPerRank % WORD, ctrl.slotCount / nSlotsPerRank;
      status, home, share, tried, held := SetupSized(ctrl, clock, deviceId, myRank, dataBytes, nRanks, timeoutMs);
      if status.OK? {
        this.slotSize, this.nSlotsPerRank := slotSize, nSlotsPerRank;
      }
    }

    /* ---- queries; null is 0, pointer arithmetic is modulo 2^64 ---- */

    predicate HostAccessibleOf(slotIdx: nat)
      reads this
    {
      nSlotsPerRank != 0 && slotIdx / nSlotsPerRank == owner
    }

    function Pointer(rank: nat, slotIdx: nat): nat
      requires nSlotsPerRank != 0 && rank < |mappings|
      reads this
    {
      (mappings[rank].addr + slotIdx % nSlotsPerRank * slotSize) % WORD
    }

    function DataAt(slotIdx: nat): nat
      reads this
    {
      if nSlotsPerRank == 0 then 0
      else
        var rank := slotIdx / nSlotsPerRank;
        if rank != owner || rank >= |mappings| || !mappings[rank].mapped then 0 else Pointer(rank, slotIdx)
    }

    function DeviceDataAt(slotIdx: nat): nat
      reads this
    {
      if nSlotsPerRank == 0 then 0
      else
        var rank := slotIdx / nSlotsPerRank;
        if rank == owner || rank >= |mappings| || !mappings[rank].mapped then 0 else Pointer(rank, slotIdx)
    }

    /** What a pointer means: byte `offset` of a physical memory, through one of the mappings. */
    ghost predicate Locates(ptr: nat, memory: nat, offset: nat)
      reads this, driver
    {
      exists r :: 0 <= r < |mappings| && Denotes(driver.space, mappings[r], memory) &&
                  ptr == mappings[r].addr + offset && offset < rankStride
    }

    /** The destructor. */
    method Dispose(ghost base: set<Resource>, ghost home: Space)
      requires Holds(base, home)
      modifies this`mappings, this`rankStride, driver`space, driver`outstanding, driver`log, driver`failures
      ensures driver.log == old(driver.log) + ResetLog(old(mappings), old(owner)) && driver.outstanding == base
      ensures driver.failures == old(driver.failures) ==> driver.space == home
    {
      Reset(base, home);
    }
  }

  lemma EmptyConsistent(space: Space, owner: nat, stride: nat, base: set<Resource>)
    requires Apart(space.reserved)
    ensures Consistent(base, space, [], owner, stride, base, space)
  {
    OwnedEmpty([], owner);
    NothingLeft(space);
  }
}

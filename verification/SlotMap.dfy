/** N processes, each with its data strategy set up: every global slot names the same physical bytes in
    all of them, through the host pointer in its owner and through the device pointer elsewhere. */
module SlotMap {
  import opened Machine
  import opened Alignment
  import opened Hal
  import opened DataStrategy
  import CtrlLayout
  import Whole

  /** A set-up process of rank `p`, wired to the memories of all ranks; the stride covers the slots, and no
      mapping is longer than its memory. */
  ghost predicate Wired(s: Strategy, p: nat, memory: seq<nat>, slotSize: nat, nSlots: nat)
    reads s, s.driver
  {
    && slotSize > 0 && nSlots > 0
    && s.slotSize == slotSize && s.nSlotsPerRank == nSlots && s.owner == p < |memory|
    && |s.mappings| == |memory|
    && (forall r :: 0 <= r < |memory| ==> Denotes(s.driver.space, s.mappings[r], memory[r]))
    && (forall r :: 0 <= r < |memory| ==> s.rankStride <= s.driver.host.extent(memory[r]))
    && slotSize * nSlots <= s.rankStride
    && LaidOut(s)
  }

  /** Mappings lie in reserved ranges, the ranges do not overlap. */
  ghost predicate LaidOut(s: Strategy)
    reads s, s.driver
  {
    && Distinct(s.mappings)
    && Apart(s.driver.space.reserved)
    && (forall r :: 0 <= r < |s.mappings| ==> RecordOk(s.driver.space, s.mappings[r], s.rankStride))
  }

  /** With every kind of pages that the machine offers, `bytes` can be rounded up without a wrap. */
  ghost predicate Fits(host: Host, bytes: nat) {
    forall pages :: RoundsUp(host.granularity(pages), bytes)
  }

  predicate RoundsUp(g: nat, bytes: nat) {
    g > 0 && Lcm(GIB, g) < WORD ==> bytes + Lcm(GIB, g) - 1 < WORD
  }

  /** Every granularity of the machine divides 1 GiB, as 4 KiB, 2 MiB and 1 GiB pages do. */
  ghost predicate DividesGib(host: Host) {
    forall pages :: GranularityDivides(host.granularity(pages))
  }

  predicate GranularityDivides(g: nat) { g > 0 ==> GIB % g == 0 }

  /** On such a machine the size is limited by 1 GiB alone. */
  lemma GibFits(host: Host, bytes: nat)
    requires DividesGib(host) && bytes + GIB - 1 < WORD
    ensures Fits(host, bytes)
  {
    forall pages
      ensures RoundsUp(host.granularity(pages), bytes)
    {
      assert GranularityDivides(host.granularity(pages));
      if host.granularity(pages) > 0 {
        DividingGranularity(host.granularity(pages));
      }
    }
  }

  /** All kinds of pages are aligned alike. */
  ghost predicate OneAlignment(host: Host) {
    forall p, q :: AlignedAlike(host.granularity(p), host.granularity(q))
  }

  predicate AlignedAlike(g: nat, h: nat) {
    g > 0 && h > 0 && Lcm(GIB, g) < WORD && Lcm(GIB, h) < WORD ==> Lcm(GIB, g) == Lcm(GIB, h)
  }

  /** Whatever pages two ranks end up with, they map the same length. */
  ghost predicate StridesAgreeOn(host: Host) {
    forall d, a, b :: StrideOk(host, a, d) && StrideOk(host, b, d) ==> a == b
  }

  /** A rank that fell back to other pages agrees with the others on the length of every mapping, for all
      data sizes, if and only if the kinds of pages are aligned alike. */
  lemma StridesAgreeIff(host: Host)
    ensures StridesAgreeOn(host) <==> OneAlignment(host)
  {
    if StridesAgreeOn(host) {
      forall p, q
        ensures AlignedAlike(host.granularity(p), host.granularity(q))
      {
        var g, h := host.granularity(p), host.granularity(q);
        if g > 0 && h > 0 && Lcm(GIB, g) < WORD && Lcm(GIB, h) < WORD {
          StrideOfOne(g);
          StrideOfOne(h);
          assert StrideFor(host.granularity(p), Lcm(GIB, g), 1) && StrideFor(host.granularity(q), Lcm(GIB, h), 1);
          assert StrideOk(host, Lcm(GIB, g), 1) && StrideOk(host, Lcm(GIB, h), 1);
        }
      }
    }
    if OneAlignment(host) {
      forall d, a, b | StrideOk(host, a, d) && StrideOk(host, b, d)
        ensures a == b
      {
        var p :| StrideFor(host.granularity(p), a, d);
        var q :| StrideFor(host.granularity(q), b, d);
        assert AlignedAlike(host.granularity(p), host.granularity(q));
      }
    }
  }

  /** In particular where every granularity divides 1 GiB. */
  lemma GibAligns(host: Host)
    requires DividesGib(host)
    ensures OneAlignment(host)
  {
    forall p, q
      ensures AlignedAlike(host.granularity(p), host.granularity(q))
    {
      var g, h := host.granularity(p), host.granularity(q);
      assert GranularityDivides(g) && GranularityDivides(h);
      if g > 0 && h > 0 {
        StridesAgree(0, g, h);
      }
    }
  }

  /** The end of slot `i` of a rank. */
  function SlotEnd(i: nat, slotSize: nat): nat { i * slotSize + slotSize }

  /** Each slot of a rank lies inside a reservation of length `stride`. */
  ghost predicate AllInside(stride: nat, slotSize: nat, nSlots: nat) {
    forall i: nat :: i < nSlots ==> SlotEnd(i, slotSize) <= stride
  }

  /** After a successful set-up the stride comes from one of the kinds of pages, and each slot of a rank
      lies inside the reservation if and only if the size of all of them can be rounded up to that
      alignment without a wrap. */
  lemma SlotsInsideIff(s: Strategy, ctrl: CtrlLayout.Control, p: nat, slotSize: nat, nSlots: nat, faithful: bool)
    requires s.Ready(ctrl, p, slotSize, nSlots, faithful)
    ensures StrideOk(s.driver.host, s.rankStride, slotSize * nSlots % WORD)
    ensures forall pages :: StrideFor(s.driver.host.granularity(pages), s.rankStride, slotSize * nSlots % WORD) ==>
      (AllInside(s.rankStride, slotSize, nSlots) <==> RoundsUp(s.driver.host.granularity(pages), slotSize * nSlots))
  {
    InsideIffCovered(s.rankStride, slotSize, nSlots);
    forall pages | StrideFor(s.driver.host.granularity(pages), s.rankStride, slotSize * nSlots % WORD)
      ensures AllInside(s.rankStride, slotSize, nSlots)
        <==> RoundsUp(s.driver.host.granularity(pages), slotSize * nSlots)
    {
      StrideCovers(slotSize * nSlots, s.driver.host.granularity(pages));
    }
  }

  lemma InsideIffCovered(stride: nat, slotSize: nat, nSlots: nat)
    requires nSlots > 0
    ensures AllInside(stride, slotSize, nSlots) <==> slotSize * nSlots <= stride
  {
    forall i: nat | i < nSlots
      ensures SlotEnd(i, slotSize) <= slotSize * nSlots
    {
      Whole.RowFits(i, nSlots, slotSize);
    }
    LastSlot(nSlots, slotSize);
  }

  lemma LastSlot(n: nat, size: nat)
    requires n > 0
    ensures SlotEnd(n - 1, size) == size * n
  {
    assert (n - 1) * size + size == n * size;
  }

  /** What `Setup` promises, with descriptors delivered faithfully, is a wired process, for all slot sizes
      and counts that fit. */
  lemma SetupWires(s: Strategy, ctrl: CtrlLayout.Control, p: nat, memory: seq<nat>, slotSize: nat, nSlots: nat,
                   base: set<Resource>, home: Space)
    requires s.Ready(ctrl, p, slotSize, nSlots, true) && s.Holds(base, home)
    requires slotSize > 0 && Fits(s.driver.host, slotSize * nSlots)
    requires |memory| == ctrl.slotCount / nSlots && s.MemoryOf(p) == memory[p]
    requires forall r :: 0 <= r < |memory| && r < |ctrl.desc| ==> s.driver.host.target(ctrl.desc[r]) == memory[r]
    ensures Wired(s, p, memory, slotSize, nSlots)
  {
    StrideEnough(s, ctrl, p, slotSize, nSlots, true);
    AllDenote(s, ctrl, p, memory, slotSize, nSlots);
  }

  lemma StrideEnough(s: Strategy, ctrl: CtrlLayout.Control, p: nat, slotSize: nat, nSlots: nat, faithful: bool)
    requires s.Ready(ctrl, p, slotSize, nSlots, faithful) && Fits(s.driver.host, slotSize * nSlots)
    ensures slotSize * nSlots <= s.rankStride
  {
    var bytes := slotSize * nSlots;
    var pages :| StrideFor(s.driver.host.granularity(pages), s.rankStride, bytes % WORD);
    assert RoundsUp(s.driver.host.granularity(pages), bytes);
    StrideCovers(bytes, s.driver.host.granularity(pages));
  }

  lemma AllDenote(s: Strategy, ctrl: CtrlLayout.Control, p: nat, memory: seq<nat>, slotSize: nat, nSlots: nat)
    requires s.Ready(ctrl, p, slotSize, nSlots, true)
    requires |memory| == ctrl.slotCount / nSlots && s.MemoryOf(p) == memory[p]
    requires forall r :: 0 <= r < |memory| && r < |ctrl.desc| ==> s.driver.host.target(ctrl.desc[r]) == memory[r]
    ensures forall r :: 0 <= r < |memory| ==>
      Denotes(s.driver.space, s.mappings[r], memory[r]) && s.rankStride <= s.driver.host.extent(memory[r])
  {
    forall r | 0 <= r < |memory|
      ensures Denotes(s.driver.space, s.mappings[r], memory[r]) && s.rankStride <= s.driver.host.extent(memory[r])
    {
      if r != p {
        assert Reaches(s.driver.space, s.mappings[r], s.driver.host, s.rankStride, ctrl.desc, r, true);
      }
    }
  }

  /* ---- N processes ---- */

  /** Process `k` of `n` on a machine has set itself up: what the contract of `Setup` gives for a rank in
      range whose control transport is faithful. `shares` are the handles that the ranks publish. */
  ghost predicate SetUpOn(host: Host, s: Strategy, ctrl: CtrlLayout.Control, k: nat, n: nat, shares: seq<nat>,
                          slotSize: nat, nSlots: nat, base: set<Resource>, home: Space)
    reads s, s.driver, host
  {
    && s.driver.host == host
    && nSlots > 0 && ctrl.slotCount == n * nSlots && ctrl.desc == shares && k < |shares| == n
    && SetUpHere(s, ctrl, k, slotSize, nSlots, base, home) && s.Shares(shares[k])
  }

  ghost predicate SetUpHere(s: Strategy, ctrl: CtrlLayout.Control, k: nat, slotSize: nat, nSlots: nat,
                            base: set<Resource>, home: Space)
    reads s, s.driver
  {
    s.Ready(ctrl, k, slotSize, nSlots, true) && s.Holds(base, home)
  }

  /** `Setup` of one process among `n` gives that, if the transport carries what the ranks publish and
      its own published handle is the one the others are told. */
  method SetUpProcess(host: Host, s: Strategy, ctrl: CtrlLayout.Control, clock: Clock, deviceId: int, k: nat, n: nat,
                      ghost shares: seq<nat>, slotSize: nat, nSlots: nat, timeoutMs: nat)
      returns (status: Status, ghost base: set<Resource>, ghost home: Space)
    requires s.driver.host == host && s.nSlotsPerRank == 0 && s.mappings == [] && Apart(s.driver.space.reserved)
    requires nSlots > 0 && ctrl.slotCount == n * nSlots && ctrl.desc == shares && k < |shares| == n
    requires ctrl.Faithful()
    modifies s, s.driver`space, s.driver`outstanding, host, s.driver`log, s.driver`failures, s.driver`refusals,
      s.driver`asked, s.driver`devices, s.driver`importable, ctrl, clock
    ensures Extends(host.creator, old(host.creator))
    ensures status.OK? && ctrl.published == old(ctrl.published) + [CtrlLayout.Line(k, shares[k])] ==>
      SetUpOn(host, s, ctrl, k, n, shares, slotSize, nSlots, base, home)
    ensures status.OK? ==> |ctrl.published| == |old(ctrl.published)| + 1
    ensures status.Error? ==> s.Obstructed(ctrl, n, old(s.driver.refusals))
  {
    RanksOf(n, nSlots);
    base := s.driver.outstanding;
    ghost var share, tried, held;
    status, home, share, tried, held := s.Setup(ctrl, clock, deviceId, k, slotSize, nSlots, timeoutMs);
    if status.OK? && ctrl.published == old(ctrl.published) + [CtrlLayout.Line(k, shares[k])] {
      assert ctrl.published[|old(ctrl.published)|] == CtrlLayout.Line(k, share);
      CtrlLayout.LineDetermines(k, share, shares[k]);
    }
  }

  lemma RanksOf(n: nat, nSlots: nat)
    requires nSlots > 0
    ensures n * nSlots / nSlots == n
  {
    Whole.Unique(n * nSlots, nSlots, n, 0);
  }

  ghost predicate PairwiseDistinct(memory: seq<nat>) {
    forall j, k :: 0 <= j < k < |memory| ==> memory[j] != memory[k]
  }

  /** An object that has not been set up, or whose set-up failed, gives no address for any slot and owns
      none. */
  lemma NoAnswers(s: Strategy, slotIdx: nat)
    requires s.Idle()
    ensures s.DataAt(slotIdx) == 0 && s.DeviceDataAt(slotIdx) == 0 && !s.HostAccessibleOf(slotIdx)
  {
  }

  /** N processes of one machine with their control blocks, the handles they publish, and what they held
      before. */
  datatype System = System(host: Host, procs: seq<Strategy>, ctrls: seq<CtrlLayout.Control>, shares: seq<nat>,
                           bases: seq<set<Resource>>, homes: seq<Space>, slotSize: nat, nSlots: nat)

  /** Process `k` is set up as a member of the system. */
  ghost predicate MemberOf(m: System, k: nat)
    requires k < |m.procs| == |m.ctrls| == |m.shares| == |m.bases| == |m.homes|
    reads m.procs[k], m.procs[k].driver, m.host
  {
    SetUpOn(m.host, m.procs[k], m.ctrls[k], k, |m.procs|, m.shares, m.slotSize, m.nSlots, m.bases[k], m.homes[k])
  }

  /** All of them are set up, and their slots fit. */
  ghost predicate AllSetUp(m: System)
    reads m.procs, (set s: Strategy | s in m.procs :: s.driver), m.host
  {
    && |m.procs| == |m.ctrls| == |m.shares| == |m.bases| == |m.homes|
    && (forall k :: 0 <= k < |m.procs| ==> MemberOf(m, k))
    && (forall j, k :: 0 <= j < k < |m.procs| ==> m.procs[j].driver.process != m.procs[k].driver.process)
    && m.nSlots > 0 && m.slotSize > 0 && Fits(m.host, m.slotSize * m.nSlots)
  }

  /** `memory` lists what each process has created for its own slots. */
  ghost predicate OwnMemories(m: System, memory: seq<nat>)
    reads m.procs, (set s: Strategy | s in m.procs :: s.driver)
  {
    |memory| == |m.procs| && forall k :: 0 <= k < |m.procs| ==> memory[k] == m.procs[k].MemoryOf(k)
  }

  /** A process before its set-up: nothing recorded, and a transport that carries what the ranks publish. */
  ghost predicate Fresh(host: Host, s: Strategy, ctrl: CtrlLayout.Control, n: nat, shares: seq<nat>, nSlots: nat)
    reads s, s.driver, ctrl
  {
    && s.driver.host == host && s.nSlotsPerRank == 0 && s.mappings == [] && Apart(s.driver.space.reserved)
    && ctrl.slotCount == n * nSlots && ctrl.desc == shares && ctrl.Faithful()
  }

  /** Different processes, with objects of their own. */
  ghost predicate Separate(procs: seq<Strategy>, ctrls: seq<CtrlLayout.Control>)
    requires |procs| == |ctrls|
  {
    forall j, k :: 0 <= j < k < |procs| ==>
      && procs[j] != procs[k] && procs[j].driver != procs[k].driver && ctrls[j] != ctrls[k]
      && procs[j].driver.process != procs[k].driver.process
  }

  /** The first `k` processes are set up, the others not yet begun. */
  ghost predicate UpTo(host: Host, procs: seq<Strategy>, ctrls: seq<CtrlLayout.Control>, shares: seq<nat>,
                       slotSize: nat, nSlots: nat, bases: seq<set<Resource>>, homes: seq<Space>, k: nat)
    requires k == |bases| == |homes| <= |procs| == |ctrls| == |shares|
    reads procs, (set s: Strategy | s in procs :: s.driver), ctrls, host
  {
    && (forall j :: 0 <= j < k ==>
          SetUpOn(host, procs[j], ctrls[j], j, |procs|, shares, slotSize, nSlots, bases[j], homes[j]))
    && (forall j :: k <= j < |procs| ==> Fresh(host, procs[j], ctrls[j], |procs|, shares, nSlots))
  }

  /** Why a process does not become a member: its set-up has been obstructed, or what it has published is not
      the handle that the others were told. */
  ghost predicate Hindered(s: Strategy, ctrl: CtrlLayout.Control, k: nat, n: nat, share: nat, refusals0: nat,
                           published0: seq<string>)
    reads s.driver, ctrl
  {
    s.Obstructed(ctrl, n, refusals0) || ctrl.published != published0 + [CtrlLayout.Line(k, share)]
  }

  /** The set-up of one more process disturbs neither those that are set up nor those to come. */
  method SetUpNext(host: Host, procs: seq<Strategy>, ctrls: seq<CtrlLayout.Control>, clock: Clock, shares: seq<nat>,
                   slotSize: nat, nSlots: nat, timeoutMs: nat, k: nat,
                   ghost bases: seq<set<Resource>>, ghost homes: seq<Space>)
      returns (ok: bool, ghost base: set<Resource>, ghost home: Space)
    requires k == |bases| == |homes| < |procs| == |ctrls| == |shares| && Separate(procs, ctrls) && nSlots > 0
    requires UpTo(host, procs, ctrls, shares, slotSize, nSlots, bases, homes, k)
    modifies procs[k], procs[k].driver, host, ctrls[k], clock
    ensures ok ==>
      SetUpOn(host, procs[k], ctrls[k], k, |procs|, shares, slotSize, nSlots, base, home)
    ensures forall j :: 0 <= j < k ==>
      SetUpOn(host, procs[j], ctrls[j], j, |procs|, shares, slotSize, nSlots, bases[j], homes[j])
    ensures forall j :: k < j < |procs| ==> Fresh(host, procs[j], ctrls[j], |procs|, shares, nSlots)
    ensures !ok ==>
      Hindered(procs[k], ctrls[k], k, |procs|, shares[k], old(procs[k].driver.refusals), old(ctrls[k].published))
  {
    assert Fresh(host, procs[k], ctrls[k], |procs|, shares, nSlots);
    var before := ctrls[k].published;
    var status;
    status, base, home :=
      SetUpProcess(host, procs[k], ctrls[k], clock, 0, k, |procs|, shares, slotSize, nSlots, timeoutMs);
    ok := status.OK? && ctrls[k].published == before + [CtrlLayout.Line(k, shares[k])];
  }

  /** Every process sets itself up. If all succeed and publish the handles that the others were told, the
      whole system is set up: neither the later processes nor memory created elsewhere disturb it. */
  method SetUpAll(host: Host, procs: seq<Strategy>, ctrls: seq<CtrlLayout.Control>, clock: Clock, shares: seq<nat>,
                  slotSize: nat, nSlots: nat, timeoutMs: nat)
      returns (ok: bool, ghost bases: seq<set<Resource>>, ghost homes: seq<Space>, ghost at: nat)
    requires |procs| == |ctrls| == |shares| && Separate(procs, ctrls)
    requires forall k :: 0 <= k < |procs| ==> Fresh(host, procs[k], ctrls[k], |procs|, shares, nSlots)
    requires nSlots > 0 && slotSize > 0 && Fits(host, slotSize * nSlots)
    modifies procs, (set s: Strategy | s in procs :: s.driver), ctrls, host, clock
    ensures ok ==> AllSetUp(System(host, procs, ctrls, shares, bases, homes, slotSize, nSlots))
    ensures !ok ==> at < |procs|
    ensures !ok ==>
      Hindered(procs[at], ctrls[at], at, |procs|, shares[at], old(procs[at].driver.refusals), old(ctrls[at].published))
  {
    hide SetUpOn, Hindered;
    bases, homes, at := [], [], 0;
    for k := 0 to |procs|
      invariant forall j :: k <= j < |procs| ==> procs[j].driver.refusals == old(procs[j].driver.refusals)
      invariant forall j :: k <= j < |procs| ==> ctrls[j].published == old(ctrls[j].published)
      invariant |bases| == |homes| == k
      invariant UpTo(host, procs, ctrls, shares, slotSize, nSlots, bases, homes, k)
    {
      ghost var base, home;
      ok, base, home := SetUpNext(host, procs, ctrls, clock, shares, slotSize, nSlots, timeoutMs, k, bases, homes);
      if !ok {
        at := k;
        return;
      }
      bases, homes := bases + [base], homes + [home];
    }
    ok := true;
  }

  /** Their own memories are pairwise distinct, and every process maps all of them, rank by rank. */
  lemma SystemWires(m: System, memory: seq<nat>)
    requires AllSetUp(m) && OwnMemories(m, memory)
    ensures PairwiseDistinct(memory)
    ensures forall k :: 0 <= k < |m.procs| ==> Wired(m.procs[k], k, memory, m.slotSize, m.nSlots)
  {
    forall r | 0 <= r < |m.procs|
      ensures m.host.target(m.shares[r]) == memory[r] && memory[r] in m.host.creator
      ensures m.host.creator[memory[r]] == m.procs[r].driver.process
    {
      assert MemberOf(m, r);
    }
    forall k | 0 <= k < |m.procs|
      ensures Wired(m.procs[k], k, memory, m.slotSize, m.nSlots)
    {
      assert MemberOf(m, k);
      RanksOf(|m.procs|, m.nSlots);
      SetupWires(m.procs[k], m.ctrls[k], k, memory, m.slotSize, m.nSlots, m.bases[k], m.homes[k]);
    }
  }

  /** Rank `r` is mapped in its whole length. */
  predicate MapsWhole(s: Strategy, r: nat, memory: nat)
    reads s, s.driver
  {
    && r < |s.mappings| && s.mappings[r].addr in s.driver.space.views
    && s.driver.space.views[s.mappings[r].addr] == (s.mappings[r].handle, s.driver.host.extent(memory))
  }

  /** In a set-up system all processes have the same stride, whatever pages they ended up with, and each maps
      every memory in its whole length. */
  lemma MappedWhole(m: System, memory: seq<nat>, j: nat, k: nat)
    requires AllSetUp(m) && OwnMemories(m, memory) && j < |m.procs| && k < |m.procs|
    ensures m.procs[j].rankStride == m.procs[k].rankStride == m.host.extent(memory[k])
    ensures MapsWhole(m.procs[j], k, memory[k])
  {
    SystemWires(m, memory);
    OwnExtent(m, memory, j);
    OwnExtent(m, memory, k);
    assert Wired(m.procs[j], j, memory, m.slotSize, m.nSlots) && Wired(m.procs[k], k, memory, m.slotSize, m.nSlots);
    assert RecordOk(m.procs[j].driver.space, m.procs[j].mappings[k], m.procs[j].rankStride);
    assert Denotes(m.procs[j].driver.space, m.procs[j].mappings[k], memory[k]);
  }

  /** A process's own memory is as large as its stride. */
  lemma OwnExtent(m: System, memory: seq<nat>, k: nat)
    requires AllSetUp(m) && OwnMemories(m, memory) && k < |m.procs|
    ensures m.procs[k].driver.host == m.host && m.host.extent(memory[k]) == m.procs[k].rankStride
  {
    assert MemberOf(m, k);
  }

  lemma DivMod(slot: nat, n: nat)
    requires n > 0
    ensures slot == slot / n * n + slot % n && slot % n < n
  {
  }

  /** Where a slot begins in its owner's memory. */
  function OffsetOf(slot: nat, nSlots: nat, slotSize: nat): nat
    requires nSlots > 0
  {
    slot % nSlots * slotSize
  }

  /** The pointer of a slot of rank `r`: not null, no wrap, inside the reservation, and naming the right
      physical bytes. */
  lemma PointerMeans(s: Strategy, p: nat, memory: seq<nat>, slotSize: nat, nSlots: nat, slot: nat)
    requires Wired(s, p, memory, slotSize, nSlots) && slot / nSlots < |memory|
    ensures var r, offset := slot / nSlots, OffsetOf(slot, nSlots, slotSize);
            && s.Pointer(r, slot) != 0
            && s.Pointer(r, slot) == s.mappings[r].addr + offset
            && offset + slotSize <= s.rankStride <= s.driver.host.extent(memory[r])
            && s.Locates(s.Pointer(r, slot), memory[r], offset)
  {
    var r := slot / nSlots;
    Placed(s, p, memory, slotSize, nSlots, r);
    Whole.RowFits(slot % nSlots, nSlots, slotSize);
    NoWrap(s.mappings[r].addr, OffsetOf(slot, nSlots, slotSize), slotSize, s.rankStride);
    assert Denotes(s.driver.space, s.mappings[r], memory[r]);
  }

  /** Every mapping lies in the address space. */
  lemma Placed(s: Strategy, p: nat, memory: seq<nat>, slotSize: nat, nSlots: nat, r: nat)
    requires Wired(s, p, memory, slotSize, nSlots) && r < |memory|
    ensures s.mappings[r].addr != 0 && s.mappings[r].addr + s.rankStride <= WORD
  {
    assert RecordOk(s.driver.space, s.mappings[r], s.rankStride);
    assert Denotes(s.driver.space, s.mappings[r], memory[r]);
  }

  lemma NoWrap(addr: nat, offset: nat, size: nat, stride: nat)
    requires offset + size <= stride && size > 0 && addr + stride <= WORD
    ensures (addr + offset) % WORD == addr + offset
  {
  }

  /** What a process may say about a slot: a host pointer if it owns it, a device pointer if a peer does,
      nothing beyond the last rank; and the address denotes the slot's bytes in its owner's memory, all of
      which exist. */
  ghost predicate AnswersRightly(s: Strategy, p: nat, memory: seq<nat>, slotSize: nat, nSlots: nat, slot: nat)
    requires nSlots > 0
    reads s, s.driver
  {
    AnswersAt(s, p, memory, slotSize, slot, slot / nSlots, OffsetOf(slot, nSlots, slotSize))
  }

  ghost predicate AnswersAt(s: Strategy, p: nat, memory: seq<nat>, slotSize: nat, slot: nat, rank: nat, offset: nat)
    reads s, s.driver
  {
    && (s.HostAccessibleOf(slot) <==> rank == p)
    && (s.DataAt(slot) != 0 <==> rank == p)
    && (s.DeviceDataAt(slot) != 0 <==> rank != p && rank < |memory|)
    && (s.DataAt(slot) != 0 ==> rank < |memory| && s.Locates(s.DataAt(slot), memory[rank], offset))
    && (s.DeviceDataAt(slot) != 0 ==> s.Locates(s.DeviceDataAt(slot), memory[rank], offset))
    && (rank < |memory| ==> offset + slotSize <= s.rankStride <= s.driver.host.extent(memory[rank]))
  }

  lemma SlotAnswers(s: Strategy, p: nat, memory: seq<nat>, slotSize: nat, nSlots: nat, slot: nat)
    requires Wired(s, p, memory, slotSize, nSlots)
    ensures AnswersRightly(s, p, memory, slotSize, nSlots, slot)
  {
    var rank := slot / nSlots;
    if rank < |memory| {
      PointerMeans(s, p, memory, slotSize, nSlots, slot);
      assert s.mappings[rank].mapped;
    }
    QueriesByRank(s, slot, rank);
  }

  /** Which of the two data queries returns the pointer. */
  lemma QueriesByRank(s: Strategy, slot: nat, rank: nat)
    requires s.nSlotsPerRank != 0 && rank == slot / s.nSlotsPerRank
    requires rank < |s.mappings| ==> s.mappings[rank].mapped
    ensures s.HostAccessibleOf(slot) <==> rank == s.owner
    ensures s.DataAt(slot) == if rank == s.owner && rank < |s.mappings| then s.Pointer(rank, slot) else 0
    ensures s.DeviceDataAt(slot) == if rank != s.owner && rank < |s.mappings| then s.Pointer(rank, slot) else 0
  {
  }

  /** A slot index is within the slots exactly when its rank exists. */
  lemma RankExists(slot: nat, nSlots: nat, ranks: nat)
    requires nSlots > 0
    ensures slot < ranks * nSlots <==> slot / nSlots < ranks
  {
    DivMod(slot, nSlots);
    var q := slot / nSlots;
    if q < ranks {
      Whole.RowFits(q, ranks, nSlots);
    } else {
      Whole.Grows(nSlots, ranks, q);
    }
  }

  /** An address means one place only. */
  lemma LocatesUnique(s: Strategy, ptr: nat, m: nat, i: nat, n: nat, j: nat)
    requires LaidOut(s) && s.Locates(ptr, m, i) && s.Locates(ptr, n, j)
    ensures m == n && i == j
  {
    var r :| 0 <= r < |s.mappings| && Denotes(s.driver.space, s.mappings[r], m) && ptr == s.mappings[r].addr + i
      && i < s.rankStride;
    var q :| 0 <= q < |s.mappings| && Denotes(s.driver.space, s.mappings[q], n) && ptr == s.mappings[q].addr + j
      && j < s.rankStride;
    assert RecordOk(s.driver.space, s.mappings[r], s.rankStride)
      && RecordOk(s.driver.space, s.mappings[q], s.rankStride);
    assert s.mappings[r].addr == s.mappings[q].addr;
    assert r == q;
  }

  /** Slots of one rank do not overlap. */
  lemma OffsetsDisjoint(slotSize: nat, nSlots: nat, a: nat, b: nat)
    requires nSlots > 0 && a != b && a / nSlots == b / nSlots
    ensures Disjoint(OffsetOf(a, nSlots, slotSize), OffsetOf(b, nSlots, slotSize), slotSize)
  {
    DivMod(a, nSlots);
    DivMod(b, nSlots);
    if a % nSlots < b % nSlots {
      Whole.RowFits(a % nSlots, b % nSlots, slotSize);
    } else {
      Whole.RowFits(b % nSlots, a % nSlots, slotSize);
    }
  }

  /** [x, x + size) and [y, y + size) have nothing in common. */
  predicate Disjoint(x: nat, y: nat, size: nat) { x + size <= y || y + size <= x }

  /** The address a process uses for a slot: the host pointer if it has one, else the device pointer. */
  function Address(s: Strategy, slot: nat): nat
    reads s
  {
    if s.DataAt(slot) != 0 then s.DataAt(slot) else s.DeviceDataAt(slot)
  }

  /** Two pieces of physical memory have no byte in common: they are in different memories, or at disjoint
      offsets. */
  ghost predicate PiecesApart(memory: seq<nat>, r: nat, x: nat, q: nat, y: nat, size: nat) {
    r < |memory| && q < |memory| && (memory[r] != memory[q] || Disjoint(x, y, size))
  }

  lemma RanksApart(memory: seq<nat>, r: nat, x: nat, q: nat, y: nat, size: nat)
    requires PairwiseDistinct(memory) && r < |memory| && q < |memory|
    requires r == q ==> Disjoint(x, y, size)
    ensures PiecesApart(memory, r, x, q, y, size)
  {
  }

  /** The physical bytes of two slots are apart. */
  ghost predicate BytesApart(memory: seq<nat>, slotSize: nat, nSlots: nat, a: nat, b: nat)
    requires nSlots > 0
  {
    PiecesApart(memory, a / nSlots, OffsetOf(a, nSlots, slotSize), b / nSlots, OffsetOf(b, nSlots, slotSize), slotSize)
  }

  lemma SlotBytesApart(memory: seq<nat>, slotSize: nat, nSlots: nat, a: nat, b: nat)
    requires nSlots > 0 && PairwiseDistinct(memory)
    requires a != b && a / nSlots < |memory| && b / nSlots < |memory|
    ensures BytesApart(memory, slotSize, nSlots, a, b)
  {
    var r, x, q, y := a / nSlots, OffsetOf(a, nSlots, slotSize), b / nSlots, OffsetOf(b, nSlots, slotSize);
    if r == q {
      OffsetsDisjoint(slotSize, nSlots, a, b);
      assert Disjoint(x, y, slotSize);
    }
    RanksApart(memory, r, x, q, y, slotSize);
  }

  /** Any two different slots are at disjoint addresses in a process, whether they belong to one rank or
      to two. */
  lemma SlotsDisjoint(s: Strategy, p: nat, memory: seq<nat>, slotSize: nat, nSlots: nat, a: nat, b: nat)
    requires Wired(s, p, memory, slotSize, nSlots)
    requires a != b && a / nSlots < |memory| && b / nSlots < |memory|
    ensures Disjoint(Address(s, a), Address(s, b), slotSize)
  {
    var r, x := Place(s, p, memory, slotSize, nSlots, a);
    var q, y := Place(s, p, memory, slotSize, nSlots, b);
    if r == q {
      OffsetsDisjoint(slotSize, nSlots, a, b);
    } else {
      RangesApart(s, p, memory, slotSize, nSlots, r, q);
    }
  }

  /** The rank and the offset of a slot, and where that is in a process. */
  lemma Place(s: Strategy, p: nat, memory: seq<nat>, slotSize: nat, nSlots: nat, slot: nat) returns (r: nat, x: nat)
    requires Wired(s, p, memory, slotSize, nSlots) && slot / nSlots < |memory|
    ensures r == slot / nSlots < |s.mappings| && x == OffsetOf(slot, nSlots, slotSize)
    ensures Address(s, slot) == s.mappings[r].addr + x && x + slotSize <= s.rankStride
  {
    r, x := slot / nSlots, OffsetOf(slot, nSlots, slotSize);
    PointerMeans(s, p, memory, slotSize, nSlots, slot);
    assert s.mappings[r].mapped;
  }

  lemma RangesApart(s: Strategy, p: nat, memory: seq<nat>, slotSize: nat, nSlots: nat, r: nat, q: nat)
    requires Wired(s, p, memory, slotSize, nSlots) && r < |memory| && q < |memory| && r != q
    ensures Disjoint(s.mappings[r].addr, s.mappings[q].addr, s.rankStride)
  {
    Placed(s, p, memory, slotSize, nSlots, r);
    Placed(s, p, memory, slotSize, nSlots, q);
    assert RecordOk(s.driver.space, s.mappings[r], s.rankStride)
      && RecordOk(s.driver.space, s.mappings[q], s.rankStride);
  }

  /** The whole system: every slot below `ranks * nSlots` is non-null in exactly one form in each process
      and denotes the same bytes in all of them, and slots beyond are null. */
  lemma SlotsAgree(m: System, memory: seq<nat>, slot: nat)
    requires AllSetUp(m) && OwnMemories(m, memory)
    ensures forall k :: 0 <= k < |m.procs| ==> AnswersRightly(m.procs[k], k, memory, m.slotSize, m.nSlots, slot)
    ensures slot < |m.procs| * m.nSlots <==> slot / m.nSlots < |memory|
  {
    SystemWires(m, memory);
    forall k | 0 <= k < |m.procs| ensures AnswersRightly(m.procs[k], k, memory, m.slotSize, m.nSlots, slot) {
      SlotAnswers(m.procs[k], k, memory, m.slotSize, m.nSlots, slot);
    }
    RankExists(slot, m.nSlots, |m.procs|);
  }

  /** And different slots are disjoint, physically and in every process. */
  lemma SlotsApart(m: System, memory: seq<nat>, a: nat, b: nat)
    requires AllSetUp(m) && OwnMemories(m, memory)
    requires a != b && a < |m.procs| * m.nSlots && b < |m.procs| * m.nSlots
    ensures BytesApart(memory, m.slotSize, m.nSlots, a, b)
    ensures forall k :: 0 <= k < |m.procs| ==> Disjoint(Address(m.procs[k], a), Address(m.procs[k], b), m.slotSize)
  {
    SystemWires(m, memory);
    RankExists(a, m.nSlots, |m.procs|);
    RankExists(b, m.nSlots, |m.procs|);
    SlotBytesApart(memory, m.slotSize, m.nSlots, a, b);
    forall k | 0 <= k < |m.procs| ensures Disjoint(Address(m.procs[k], a), Address(m.procs[k], b), m.slotSize) {
      SlotsDisjoint(m.procs[k], k, memory, m.slotSize, m.nSlots, a, b);
    }
  }
}

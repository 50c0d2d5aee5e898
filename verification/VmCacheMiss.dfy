/** The tracker of all VM threads and the per-VM sums (src/sysinfo/vm/dynamic/vm_cache_miss.cpp). */
module VmCacheMissTracker {
  import opened Wrappers
  import opened Perf
  import opened Sets
  import opened CacheMissSampler
  import opened MachineWords
  import VmIdentity

  // Ids are compared exactly here; the tolerant comparison is in VmIdentity.
  type VmId = VmIdentity.VmId

  const NOT_FOUND := VmIdentity.VmId(0, 0)

  datatype Counts = Counts(cacheMisses: nat, cpuCycles: nat, instructions: nat, cacheReferences: nat) {
    function At(e: Event): nat {
      match e
      case CacheMisses => cacheMisses
      case CpuCycles => cpuCycles
      case Instructions => instructions
      case CacheReferences => cacheReferences
    }

    // Unsigned 64-bit additions.
    function Plus(d: CacheMissData): Counts {
      Counts((cacheMisses + d.cacheMisses.count) % U64, (cpuCycles + d.cpuCycles.count) % U64,
             (instructions + d.instructions.count) % U64, (cacheReferences + d.cacheReferences.count) % U64)
    }
  }

  const ZERO_COUNTS := Counts(0, 0, 0, 0)

  // ---------- sums over sets of threads ----------

  ghost function SumCounts(data: map<Tid, CacheMissData>, s: set<Tid>, e: Event): nat
    requires s <= data.Keys
  {
    if s == {} then 0 else
    var t := AnyOf(s);
    data[t].At(e).count + SumCounts(data, s - {t}, e)
  }

  // The sum does not depend on the order of the visits.
  lemma {:induction false} SumCountsRemove(data: map<Tid, CacheMissData>, s: set<Tid>, t: Tid, e: Event)
    requires s <= data.Keys && t in s
    ensures SumCounts(data, s, e) == data[t].At(e).count + SumCounts(data, s - {t}, e)
    decreases |s|
  {
    var u := AnyOf(s);
    if u != t {
      SumCountsRemove(data, s - {u}, t, e);
      SumCountsRemove(data, s - {t}, u, e);
      assert s - {u} - {t} == s - {t} - {u};
    }
  }

  lemma SumCountsAdd(data: map<Tid, CacheMissData>, s: set<Tid>, t: Tid, e: Event)
    requires s <= data.Keys && t in data && t !in s
    ensures SumCounts(data, s + {t}, e) == data[t].At(e).count + SumCounts(data, s, e)
  {
    SumCountsRemove(data, s + {t}, t, e);
    assert s + {t} - {t} == s;
  }

  // ---------- attribution ----------

  // The VM of a thread: the stable index first, then the volatile one; None if neither knows it.
  function Attribution(stable: map<Tid, VmId>, volatiles: map<Tid, VmId>, t: Tid): Option<VmId> {
    if t in stable && stable[t].startTimestamp != 0 then Some(stable[t])
    else if t in volatiles && volatiles[t].startTimestamp != 0 then Some(volatiles[t])
    else None
  }

  /** A VM that the stable index names is taken whatever the volatile one says; the volatile one only when the stable one
      names none; a start time of 0 names none. */
  lemma StableFirst(stable: map<Tid, VmId>, volatiles: map<Tid, VmId>, t: Tid, s: VmId, v: VmId)
    requires s.startTimestamp != 0 && v.startTimestamp != 0
    ensures Attribution(stable[t := s], volatiles, t) == Some(s)
    ensures Attribution(stable - {t}, volatiles[t := v], t) == Some(v) == Attribution(stable[t := VmIdentity.VmId(0, 0)], volatiles[t := v], t)
    ensures Attribution(stable - {t}, volatiles - {t}, t) == None
  {
  }

  ghost function AttributedTo(stable: map<Tid, VmId>, volatiles: map<Tid, VmId>, s: set<Tid>, v: VmId): set<Tid> {
    set t | t in s && Attribution(stable, volatiles, t) == Some(v)
  }

  // A VM has an entry exactly when it has threads, and the entry holds their sums modulo the counters' width.
  ghost predicate HoldsSum(entry: Option<Counts>, data: map<Tid, CacheMissData>, mine: set<Tid>)
    requires mine <= data.Keys
  {
    && (entry.None? <==> mine == {})
    && (entry.Some? ==> forall e :: entry.value.At(e) == SumCounts(data, mine, e) % U64)
  }

  function Lookup<K, V>(m: map<K, V>, key: K): Option<V> {
    if key in m then Some(m[key]) else None
  }

  ghost predicate HoldsSums(vmData: map<VmId, Counts>, data: map<Tid, CacheMissData>,
                            stable: map<Tid, VmId>, volatiles: map<Tid, VmId>, done: set<Tid>)
    requires done <= data.Keys
  {
    forall v :: HoldsSum(Lookup(vmData, v), data, AttributedTo(stable, volatiles, done, v))
  }

  lemma WrapAdd(a: nat, b: nat)
    ensures (a % U64 + b) % U64 == (a + b) % U64
  {
  }

  lemma NoSums(data: map<Tid, CacheMissData>, stable: map<Tid, VmId>, volatiles: map<Tid, VmId>)
    ensures HoldsSums(map[], data, stable, volatiles, {})
  {
  }

  // Indexes that attribute alike hold the same sums.
  lemma SameSums(vmData: map<VmId, Counts>, data: map<Tid, CacheMissData>,
                 stable: map<Tid, VmId>, volatiles: map<Tid, VmId>, volatiles': map<Tid, VmId>)
    requires HoldsSums(vmData, data, stable, volatiles, data.Keys)
    requires forall t :: Attribution(stable, volatiles', t) == Attribution(stable, volatiles, t)
    ensures HoldsSums(vmData, data, stable, volatiles', data.Keys)
  {
    hide HoldsSum;
    forall v ensures HoldsSum(Lookup(vmData, v), data, AttributedTo(stable, volatiles', data.Keys, v)) {
      assert AttributedTo(stable, volatiles', data.Keys, v) == AttributedTo(stable, volatiles, data.Keys, v);
    }
  }

  lemma HoldsSumAdd(entry: Option<Counts>, data: map<Tid, CacheMissData>, mine: set<Tid>, t: Tid)
    requires mine <= data.Keys && t in data && t !in mine && HoldsSum(entry, data, mine)
    ensures HoldsSum(Some((if entry.Some? then entry.value else ZERO_COUNTS).Plus(data[t])), data, mine + {t})
  {
    var was := if entry.Some? then entry.value else ZERO_COUNTS;
    assert forall e :: was.At(e) == SumCounts(data, mine, e) % U64;
    hide SumCounts;
    var now := was.Plus(data[t]);
    forall e ensures now.At(e) == SumCounts(data, mine + {t}, e) % U64 {
      SumCountsAdd(data, mine, t, e);
      WrapAdd(SumCounts(data, mine, e), data[t].At(e).count);
      assert now.At(e) == (was.At(e) + data[t].At(e).count) % U64;
    }
  }

  lemma SumsSkip(vmData: map<VmId, Counts>, data: map<Tid, CacheMissData>,
                 stable: map<Tid, VmId>, volatiles: map<Tid, VmId>, done: set<Tid>, t: Tid)
    requires done <= data.Keys && t in data && HoldsSums(vmData, data, stable, volatiles, done)
    requires Attribution(stable, volatiles, t).None?
    ensures HoldsSums(vmData, data, stable, volatiles, done + {t})
  {
    hide HoldsSum;
    forall v ensures HoldsSum(Lookup(vmData, v), data, AttributedTo(stable, volatiles, done + {t}, v)) {
      assert AttributedTo(stable, volatiles, done + {t}, v) == AttributedTo(stable, volatiles, done, v);
    }
  }

  lemma SumsAdd(vmData: map<VmId, Counts>, data: map<Tid, CacheMissData>,
                stable: map<Tid, VmId>, volatiles: map<Tid, VmId>, done: set<Tid>, t: Tid, v: VmId)
    requires done <= data.Keys && t in data && t !in done && HoldsSums(vmData, data, stable, volatiles, done)
    requires Attribution(stable, volatiles, t) == Some(v)
    ensures var was := if v in vmData then vmData[v] else ZERO_COUNTS;
            HoldsSums(vmData[v := was.Plus(data[t])], data, stable, volatiles, done + {t})
  {
    hide HoldsSum;
    var was := if v in vmData then vmData[v] else ZERO_COUNTS;
    var now := vmData[v := was.Plus(data[t])];
    forall u ensures HoldsSum(Lookup(now, u), data, AttributedTo(stable, volatiles, done + {t}, u)) {
      var mine := AttributedTo(stable, volatiles, done, u);
      if u == v {
        assert AttributedTo(stable, volatiles, done + {t}, u) == mine + {t};
        HoldsSumAdd(Lookup(vmData, u), data, mine, t);
      } else {
        assert AttributedTo(stable, volatiles, done + {t}, u) == mine;
      }
    }
  }

  // ---------- totals ----------

  ghost function SumOverVms(data: map<Tid, CacheMissData>, stable: map<Tid, VmId>, volatiles: map<Tid, VmId>,
                            s: set<Tid>, vms: set<VmId>, e: Event): nat
    requires s <= data.Keys
  {
    if vms == {} then 0 else
    var v := AnyOf(vms);
    SumCounts(data, AttributedTo(stable, volatiles, s, v), e) + SumOverVms(data, stable, volatiles, s, vms - {v}, e)
  }

  ghost function AttributedToAny(stable: map<Tid, VmId>, volatiles: map<Tid, VmId>, s: set<Tid>, vms: set<VmId>): set<Tid> {
    set t | t in s && Attribution(stable, volatiles, t).Some? && Attribution(stable, volatiles, t).value in vms
  }

  ghost function Attributed(stable: map<Tid, VmId>, volatiles: map<Tid, VmId>, s: set<Tid>): set<Tid> {
    set t | t in s && Attribution(stable, volatiles, t).Some?
  }

  lemma {:induction false} SumCountsUnion(data: map<Tid, CacheMissData>, a: set<Tid>, b: set<Tid>, e: Event)
    requires a <= data.Keys && b <= data.Keys && a !! b
    ensures SumCounts(data, a + b, e) == SumCounts(data, a, e) + SumCounts(data, b, e)
    decreases |a|
  {
    if a == {} {
      assert a + b == b;
    } else {
      var t := AnyOf(a);
      SumCountsUnion(data, a - {t}, b, e);
      SumCountsRemove(data, a + b, t, e);
      assert a + b - {t} == (a - {t}) + b;
    }
  }

  /** Summing per VM and then over the VMs is summing over all attributed threads. */
  lemma {:induction false} TotalsAgree(data: map<Tid, CacheMissData>, stable: map<Tid, VmId>, volatiles: map<Tid, VmId>,
                                       s: set<Tid>, vms: set<VmId>, e: Event)
    requires s <= data.Keys
    ensures SumOverVms(data, stable, volatiles, s, vms, e) == SumCounts(data, AttributedToAny(stable, volatiles, s, vms), e)
    decreases |vms|
  {
    if vms == {} {
      assert AttributedToAny(stable, volatiles, s, vms) == {};
    } else {
      var v := AnyOf(vms);
      TotalsAgree(data, stable, volatiles, s, vms - {v}, e);
      var mine, others := AttributedTo(stable, volatiles, s, v), AttributedToAny(stable, volatiles, s, vms - {v});
      SumCountsUnion(data, mine, others, e);
      assert AttributedToAny(stable, volatiles, s, vms) == mine + others;
    }
  }

  ghost function SumOfTable(vmData: map<VmId, Counts>, vms: set<VmId>, e: Event): nat
    requires vms <= vmData.Keys
  {
    if vms == {} then 0 else
    var v := AnyOf(vms);
    vmData[v].At(e) + SumOfTable(vmData, vms - {v}, e)
  }

  /** The total of the VM table is the total over all attributed threads, modulo the counters' width. */
  lemma {:induction false} TableTotal(vmData: map<VmId, Counts>, data: map<Tid, CacheMissData>, stable: map<Tid, VmId>,
                                      volatiles: map<Tid, VmId>, e: Event)
    requires HoldsSums(vmData, data, stable, volatiles, data.Keys)
    ensures SumOfTable(vmData, vmData.Keys, e) % U64 ==
            SumCounts(data, Attributed(stable, volatiles, data.Keys), e) % U64
  {
    TableTotalOver(vmData, data, stable, volatiles, vmData.Keys, e);
    TotalsAgree(data, stable, volatiles, data.Keys, vmData.Keys, e);
    var attributed := Attributed(stable, volatiles, data.Keys);
    forall t | t in attributed ensures Attribution(stable, volatiles, t).value in vmData {
      var v := Attribution(stable, volatiles, t).value;
      assert t in AttributedTo(stable, volatiles, data.Keys, v);
      assert HoldsSum(Lookup(vmData, v), data, AttributedTo(stable, volatiles, data.Keys, v));
    }
    assert attributed == AttributedToAny(stable, volatiles, data.Keys, vmData.Keys);
  }

  lemma {:induction false} TableTotalOver(vmData: map<VmId, Counts>, data: map<Tid, CacheMissData>, stable: map<Tid, VmId>,
                                          volatiles: map<Tid, VmId>, vms: set<VmId>, e: Event)
    requires HoldsSums(vmData, data, stable, volatiles, data.Keys) && vms <= vmData.Keys
    ensures SumOfTable(vmData, vms, e) % U64 == SumOverVms(data, stable, volatiles, data.Keys, vms, e) % U64
    decreases |vms|
  {
    if vms != {} {
      var v := AnyOf(vms);
      TableTotalOver(vmData, data, stable, volatiles, vms - {v}, e);
      var mine := AttributedTo(stable, volatiles, data.Keys, v);
      assert HoldsSum(Lookup(vmData, v), data, mine);
      var x, a, b := SumCounts(data, mine, e), SumOfTable(vmData, vms - {v}, e),
                     SumOverVms(data, stable, volatiles, data.Keys, vms - {v}, e);
      WrapAdd(x, a);
      WrapAdd(a, x);
      WrapAdd(b, x);
      assert vmData[v].At(e) == x % U64;
    }
  }

  // ---------- the tracker ----------

  ghost function ThreadsOf(ids: map<VmId, set<Tid>>, vms: set<VmId>): set<Tid> {
    set v, t | v in vms && v in ids && t in ids[v] :: t
  }

  lemma ThreadsOfAdd(ids: map<VmId, set<Tid>>, vms: set<VmId>, v: VmId)
    ensures ThreadsOf(ids, vms + {v}) == ThreadsOf(ids, vms) + (if v in ids then ids[v] else {})
  {
    forall t | t in ThreadsOf(ids, vms + {v}) ensures t in ThreadsOf(ids, vms) || (v in ids && t in ids[v]) {
      var u :| u in vms + {v} && u in ids && t in ids[u];
    }
    forall t | t in ThreadsOf(ids, vms) ensures t in ThreadsOf(ids, vms + {v}) {
      var u :| u in vms && u in ids && t in ids[u];
      assert u in vms + {v};
    }
    if v in ids {
      forall t | t in ids[v] ensures t in ThreadsOf(ids, vms + {v}) {
        assert v in vms + {v};
      }
    }
  }

  // What the VM directory answers during one round.
  datatype Round = Round(vmIds: set<VmId>, stableIds: map<VmId, set<Tid>>, volatileIds: map<VmId, set<Tid>>,
                         stableIndex: map<Tid, VmId>) {
    function Stable(v: VmId): set<Tid> { if v in stableIds then stableIds[v] else {} }

    function Volatile(v: VmId): set<Tid> { if v in volatileIds then volatileIds[v] else {} }

    // The threads of some of the VMs, and the volatile ones among them.
    ghost function Tids(vms: set<VmId>): set<Tid> { ThreadsOf(stableIds, vms) + ThreadsOf(volatileIds, vms) }

    ghost function Volatiles(vms: set<VmId>): set<Tid> { ThreadsOf(volatileIds, vms) }

    // The index points every volatile thread to a VM that has it, and leaves the others as they were.
    ghost predicate Indexes(vms: set<VmId>, was: map<Tid, VmId>, now: map<Tid, VmId>) {
      forall t ::
        if t in Volatiles(vms) then t in now && now[t] in vms && t in Volatile(now[t])
        else Lookup(now, t) == Lookup(was, t)
    }

    lemma IndexNone(was: map<Tid, VmId>)
      ensures Indexes({}, was, was) && Tids({}) == {}
    {
    }

    lemma IndexAdd(vms: set<VmId>, was: map<Tid, VmId>, now: map<Tid, VmId>, v: VmId)
      requires Indexes(vms, was, now)
      ensures Indexes(vms + {v}, was, now + map t | t in Volatile(v) :: v)
      ensures Tids(vms + {v}) == Tids(vms) + Stable(v) + Volatile(v)
    {
      ThreadsOfAdd(stableIds, vms, v);
      ThreadsOfAdd(volatileIds, vms, v);
    }
  }

  class VmCacheMiss {
    const cacheMiss: CacheMiss
    var vmData: map<VmId, Counts>
    var lastTids: set<Tid>
    var volatileIndex: map<Tid, VmId>

    // Between refreshes of the only refresher: nothing is queued for start; the queued stops are
    // the watched threads with a failed read; a tracked thread is unwatched only after a failure.
    ghost predicate Valid()
      reads this, cacheMiss, cacheMiss.kernel
    {
      && cacheMiss.Valid() && cacheMiss.toStart == []
      && cacheMiss.data.Keys <= lastTids
      && SetOf(cacheMiss.toStop) == cacheMiss.data.Keys * cacheMiss.failed
      && lastTids - cacheMiss.data.Keys <= cacheMiss.failed
    }

    constructor (cacheMiss: CacheMiss)
      requires cacheMiss.Valid() && cacheMiss.data == map[] && cacheMiss.toStart == [] && cacheMiss.toStop == []
      ensures Valid() && this.cacheMiss == cacheMiss && lastTids == {}
    {
      this.cacheMiss := cacheMiss;
      vmData, lastTids, volatileIndex := map[], {}, map[];
    }

    method Collect(round: Round) returns (tids: set<Tid>)
      modifies this`volatileIndex
      ensures tids == round.Tids(round.vmIds)
      ensures round.Indexes(round.vmIds, old(volatileIndex), volatileIndex)
    {
      round.IndexNone(volatileIndex);
      hide ThreadsOf;
      hide Round.Indexes, Round.Tids;
      tids := {};
      var pending := round.vmIds;
      ghost var done: set<VmId> := {};
      while pending != {}
        invariant done + pending == round.vmIds && done !! pending
        invariant tids == round.Tids(done) && round.Indexes(done, old(volatileIndex), volatileIndex)
        decreases |pending|
      {
        var v := Pick(pending);
        round.IndexAdd(done, old(volatileIndex), volatileIndex, v);
        pending, done := pending - {v}, done + {v};
        tids := tids + round.Stable(v) + round.Volatile(v);
        volatileIndex := volatileIndex + map t | t in round.Volatile(v) :: v;
      }
      assert done == round.vmIds;
    }

    // Starts and stops go behind what is queued already.
    method Queue(starts: seq<Tid>, stops: seq<Tid>)
      modifies cacheMiss`toStart, cacheMiss`toStop
      ensures cacheMiss.toStart == old(cacheMiss.toStart) + starts && cacheMiss.toStop == old(cacheMiss.toStop) + stops
    {
      for i := 0 to |starts|
        invariant cacheMiss.toStart == old(cacheMiss.toStart) + starts[..i] && cacheMiss.toStop == old(cacheMiss.toStop)
      {
        cacheMiss.StartWatching(starts[i]);
        assert starts[..i + 1] == starts[..i] + [starts[i]];
      }
      assert starts[..|starts|] == starts;
      for i := 0 to |stops|
        invariant cacheMiss.toStart == old(cacheMiss.toStart) + starts && cacheMiss.toStop == old(cacheMiss.toStop) + stops[..i]
      {
        cacheMiss.StopWatching(stops[i]);
        assert stops[..i + 1] == stops[..i] + [stops[i]];
      }
      assert stops[..|stops|] == stops;
    }

    /** Queues the difference to the last round; starts and stops are disjoint when the sampler drains them. */
    method Track(tids: set<Tid>)
      requires Valid()
      modifies this`lastTids, cacheMiss`toStart, cacheMiss`toStop
      ensures cacheMiss.Valid() && lastTids == tids
      ensures SetOf(cacheMiss.toStart) == tids - old(lastTids)
      ensures SetOf(cacheMiss.toStop) == SetOf(old(cacheMiss.toStop)) + (old(lastTids) - tids)
      ensures SetOf(cacheMiss.toStart) !! SetOf(cacheMiss.toStop)
    {
      hide CacheMiss.Valid;
      var starts := List(tids - lastTids);
      var stops := List(lastTids - tids);
      SetOfAll(cacheMiss.toStart, starts);
      SetOfAll(cacheMiss.toStop, stops);
      lastTids := tids;
      Queue(starts, stops);
    }

    // The sampler's part of a refresh, after tracking.
    method Sample(ghost was: set<Tid>) returns (ghost badFirst: set<Tid>, ghost badSecond: set<Tid>, ghost firsts: map<Fd, nat>)
      requires cacheMiss.Valid()
      requires cacheMiss.data.Keys <= was && was - cacheMiss.data.Keys <= cacheMiss.failed
      requires SetOf(cacheMiss.toStart) == lastTids - was
      requires SetOf(cacheMiss.toStop) == cacheMiss.data.Keys * cacheMiss.failed + (was - lastTids)
      modifies cacheMiss, cacheMiss.kernel
      ensures Valid()
      ensures cacheMiss.data.Keys * was == lastTids * was - old(cacheMiss.failed)
      ensures Counted(cacheMiss.data, badFirst, badSecond, firsts, cacheMiss.kernel.answers)
    {
      hide Agree, Counted;
      badFirst, badSecond, firsts := cacheMiss.Refresh();
    }

    // One callback of the sampler.
    method CalVmMissRate(stableIndex: map<Tid, VmId>, d: CacheMissData)
      modifies this`vmData, this`volatileIndex
      ensures forall t :: Attribution(stableIndex, volatileIndex, t) == Attribution(stableIndex, old(volatileIndex), t)
      ensures var v := Attribution(stableIndex, old(volatileIndex), d.tid);
              vmData == if v.None? then old(vmData)
                        else old(vmData)[v.value := (if v.value in old(vmData) then old(vmData)[v.value] else ZERO_COUNTS).Plus(d)]
    {
      var v := if d.tid in stableIndex then stableIndex[d.tid] else NOT_FOUND;
      if v.startTimestamp == 0 {
        if d.tid !in volatileIndex {
          volatileIndex := volatileIndex[d.tid := NOT_FOUND];  // the subscript inserts a default id
        }
        v := volatileIndex[d.tid];
        if v.startTimestamp == 0 {
          return;
        }
      }
      var was := if v in vmData then vmData[v] else ZERO_COUNTS;
      vmData := vmData[v := was.Plus(d)];
    }

    // The index still attributes every thread as it did.
    ghost predicate SameAttribution(stableIndex: map<Tid, VmId>, index: map<Tid, VmId>)
      reads this`volatileIndex
    {
      forall t :: Attribution(stableIndex, volatileIndex, t) == Attribution(stableIndex, index, t)
    }

    /** The callbacks, in any order, leave every VM's counters equal to the sums over its watched threads. */
    method Attribute(stableIndex: map<Tid, VmId>)
      requires cacheMiss.Valid() && vmData == map[]
      modifies this`vmData, this`volatileIndex
      ensures HoldsSums(vmData, cacheMiss.data, stableIndex, volatileIndex, cacheMiss.data.Keys)
      ensures SameAttribution(stableIndex, old(volatileIndex))
    {
      var data := cacheMiss.data;
      assert forall t <- data :: data[t].tid == t;
      hide Agree, Attribution, HoldsSum;
      var pending := data.Keys;
      ghost var done: set<Tid> := {};
      ghost var index := volatileIndex;
      NoSums(data, stableIndex, index);
      while pending != {}
        invariant done == data.Keys - pending && pending <= data.Keys
        invariant HoldsSums(vmData, data, stableIndex, index, done)
        invariant SameAttribution(stableIndex, index)
        decreases |pending|
      {
        var tid := Pick(pending);
        var v := Attribution(stableIndex, index, tid);
        if v.Some? {
          SumsAdd(vmData, data, stableIndex, index, done, tid, v.value);
        } else {
          SumsSkip(vmData, data, stableIndex, index, done, tid);
        }
        CalVmMissRate(stableIndex, data[tid]);
        pending, done := pending - {tid}, done + {tid};
      }
      assert done == data.Keys;
      SameSums(vmData, data, stableIndex, index, volatileIndex);
    }

    /** One refresh: tracks the VM threads, samples them and sums per VM the increases between the values read. A thread
        that stays tracked is watched exactly if none of its calls had failed since it was added. */
    method Refresh(round: Round) returns (ghost badFirst: set<Tid>, ghost badSecond: set<Tid>, ghost firsts: map<Fd, nat>)
      requires Valid()
      modifies this, cacheMiss, cacheMiss.kernel
      ensures Valid() && lastTids == round.Tids(round.vmIds)
      ensures cacheMiss.data.Keys * old(lastTids) == lastTids * old(lastTids) - old(cacheMiss.failed)
      ensures Counted(cacheMiss.data, badFirst, badSecond, firsts, cacheMiss.kernel.answers)
      ensures HoldsSums(vmData, cacheMiss.data, round.stableIndex, volatileIndex, cacheMiss.data.Keys)
      ensures exists index :: round.Indexes(round.vmIds, old(volatileIndex), index) && SameAttribution(round.stableIndex, index)
    {
      hide Agree, HoldsSums, Counted;
      vmData := map[];
      ghost var was := lastTids;
      var tids := Collect(round);
      Track(tids);
      badFirst, badSecond, firsts := Sample(was);
      Attribute(round.stableIndex);
    }

    method Clear()
      requires Valid()
      modifies this, cacheMiss, cacheMiss.kernel
      ensures Valid() && lastTids == {} && vmData == map[] && volatileIndex == map[]
      ensures cacheMiss.kernel.open == map[] && cacheMiss.kernel.badCloses == 0
    {
      cacheMiss.Clear();
      vmData, lastTids, volatileIndex := map[], {}, map[];
    }

    /** Over any number of rounds the invariant holds; when the run stops no descriptor is left open. */
    method Run(rounds: seq<Round>)
      requires Valid()
      modifies this, cacheMiss, cacheMiss.kernel
      ensures Valid() && cacheMiss.kernel.open == map[] && cacheMiss.kernel.badCloses == 0
    {
      for i := 0 to |rounds|
        invariant Valid()
      {
        ghost var _, _, _ := Refresh(rounds[i]);
      }
      Clear();
    }
  }
}

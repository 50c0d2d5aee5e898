/** The per-thread cache-miss sampler (src/sysinfo/vm/dynamic/cache_miss.cpp). */
module CacheMissSampler {
  import opened MachineWords
  import opened Wrappers
  import opened Perf
  import opened Sets

  datatype PerfData = PerfData(fd: Fd, firstTime: nat, secondTime: nat, count: nat) {
    function Cleared(): PerfData { PerfData(fd, 0, 0, 0) }
  }

  const CLOSED := PerfData(-1, 0, 0, 0)

  datatype CacheMissData = CacheMissData(tid: Tid, cacheMisses: PerfData, cpuCycles: PerfData,
                                         instructions: PerfData, cacheReferences: PerfData) {
    function At(e: Event): PerfData {
      match e
      case CacheMisses => cacheMisses
      case CpuCycles => cpuCycles
      case Instructions => instructions
      case CacheReferences => cacheReferences
    }

    function Fds(): set<Fd> { {cacheMisses.fd, cpuCycles.fd, instructions.fd, cacheReferences.fd} }

    ghost predicate Distinct() { forall e, e' | At(e).fd == At(e').fd :: e == e' }

    // Every descriptor of this entry is open on the entry's own counter.
    ghost predicate OwnsIn(open: map<Fd, Counter>) {
      forall e :: At(e).fd in open && open[At(e).fd] == Counter(tid, e)
    }

    // None of the descriptors was open, and they are four.
    ghost predicate FreshFor(open: map<Fd, Counter>) { Distinct() && Fds() !! open.Keys }

    ghost function AddedTo(open: map<Fd, Counter>): map<Fd, Counter> {
      open[cacheMisses.fd := Counter(tid, CacheMisses)]
          [cpuCycles.fd := Counter(tid, CpuCycles)]
          [instructions.fd := Counter(tid, Instructions)]
          [cacheReferences.fd := Counter(tid, CacheReferences)]
    }

    // Only readings differ.
    ghost predicate SameFds(d: CacheMissData) { tid == d.tid && forall e :: At(e).fd == d.At(e).fd }

    function ClearedData(): CacheMissData {
      CacheMissData(tid, cacheMisses.Cleared(), cpuCycles.Cleared(), instructions.Cleared(), cacheReferences.Cleared())
    }
  }

  // ---------- one entry ----------

  method OpenFds(kernel: Kernel, tid: Tid) returns (ok: bool, d: CacheMissData)
    modifies kernel
    ensures kernel.badCloses == old(kernel.badCloses) && d.tid == tid
    ensures ok ==> d.FreshFor(old(kernel.open)) && kernel.open == d.AddedTo(old(kernel.open)) && kernel.failures == old(kernel.failures)
    ensures !ok ==> kernel.open == old(kernel.open) && kernel.failures == old(kernel.failures) + [tid]
  {
    d := CacheMissData(tid, CLOSED, CLOSED, CLOSED, CLOSED);
    ghost var before := kernel.open;
    var a := kernel.Open(Counter(tid, CacheMisses));
    if a < 0 {
      return false, d;
    }
    var b := kernel.Open(Counter(tid, CpuCycles));
    if b < 0 {
      kernel.Close(a);
      assert kernel.open == before;
      return false, d;
    }
    var c := kernel.Open(Counter(tid, Instructions));
    if c < 0 {
      kernel.Close(a);
      kernel.Close(b);
      assert kernel.open == before;
      return false, d;
    }
    var r := kernel.Open(Counter(tid, CacheReferences));
    if r < 0 {
      kernel.Close(a);
      kernel.Close(b);
      kernel.Close(c);
      assert kernel.open == before;
      return false, d;
    }
    d := CacheMissData(tid, CLOSED.(fd := a), CLOSED.(fd := b), CLOSED.(fd := c), CLOSED.(fd := r));
    return true, d;
  }

  method CloseFds(kernel: Kernel, d: CacheMissData)
    requires d.Distinct() && d.Fds() <= kernel.open.Keys
    modifies kernel`open, kernel`badCloses
    ensures kernel.open == old(kernel.open) - d.Fds() && kernel.badCloses == old(kernel.badCloses)
  {
    assert d.At(CacheMisses).fd != d.At(CpuCycles).fd && d.At(CacheMisses).fd != d.At(Instructions).fd
        && d.At(CacheMisses).fd != d.At(CacheReferences).fd && d.At(CpuCycles).fd != d.At(Instructions).fd
        && d.At(CpuCycles).fd != d.At(CacheReferences).fd && d.At(Instructions).fd != d.At(CacheReferences).fd;
    kernel.Close(d.cacheMisses.fd);
    kernel.Close(d.cpuCycles.fd);
    kernel.Close(d.instructions.fd);
    kernel.Close(d.cacheReferences.fd);
  }

  // What a read leaves in the kernel's log: a value for the descriptor, or a failure of its thread.
  ghost predicate Logged(ok: bool, was: map<Fd, nat>, now: map<Fd, nat>, failures: seq<Tid>, failures': seq<Tid>, fd: Fd, tid: Tid) {
    if ok then fd in now && now == was[fd := now[fd]] && failures' == failures
    else now == was && failures' == failures + [tid]
  }

  method FirstReadOf(kernel: Kernel, p: PerfData) returns (ok: bool, q: PerfData)
    requires p.fd in kernel.open
    modifies kernel`clock, kernel`answers, kernel`failures
    ensures Logged(ok, old(kernel.answers), kernel.answers, old(kernel.failures), kernel.failures, p.fd, kernel.open[p.fd].tid)
    ensures q == if ok then p.(firstTime := kernel.answers[p.fd]) else p
  {
    var value := kernel.Read(p.fd);
    match value
    case None => return false, p;
    case Some(v) => return true, p.(firstTime := v);
  }

  // The increase from one value of a counter to a later one; a counter that went backwards counts 0.
  function Increase(first: nat, second: nat): nat { if second > first then second - first else 0 }

  method SecondReadOf(kernel: Kernel, p: PerfData) returns (ok: bool, q: PerfData)
    requires p.fd in kernel.open
    modifies kernel`clock, kernel`answers, kernel`failures
    ensures Logged(ok, old(kernel.answers), kernel.answers, old(kernel.failures), kernel.failures, p.fd, kernel.open[p.fd].tid)
    ensures q == if ok then PerfData(p.fd, p.firstTime, kernel.answers[p.fd], Increase(p.firstTime, kernel.answers[p.fd])) else p
  {
    var value := kernel.Read(p.fd);
    match value
    case None => return false, p;
    case Some(v) =>
      var count := 0;
      if v > p.firstTime {
        count := v - p.firstTime;
      }
      return true, PerfData(p.fd, p.firstTime, v, count);
  }

  // The entry after a successful round of first readings: the times are the values read from its descriptors.
  ghost predicate FirstReadings(d: CacheMissData, d': CacheMissData, answers: map<Fd, nat>) {
    forall e :: AnswerOf(answers, d.At(e).fd) == Some(d'.At(e).firstTime) && d'.At(e) == d.At(e).(firstTime := d'.At(e).firstTime)
  }

  // The entry after a successful round of second readings: so are the second times, and the counts are the increases.
  ghost predicate SecondReadings(d: CacheMissData, d': CacheMissData, answers: map<Fd, nat>) {
    forall e ::
      && AnswerOf(answers, d.At(e).fd) == Some(d'.At(e).secondTime) && d'.At(e).firstTime == d.At(e).firstTime
      && d'.At(e).count == Increase(d.At(e).firstTime, d'.At(e).secondTime)
  }

  ghost predicate SameOutside(was: map<Fd, nat>, now: map<Fd, nat>, fds: set<Fd>) {
    forall fd | fd !in fds :: AnswerOf(now, fd) == AnswerOf(was, fd)
  }

  /** Either all four counters are read, or a read failed and the readings of all four are cleared. */
  method FirstRead(kernel: Kernel, d: CacheMissData) returns (ok: bool, r: CacheMissData)
    requires d.OwnsIn(kernel.open)
    modifies kernel`clock, kernel`answers, kernel`failures
    ensures r.SameFds(d) && SameOutside(old(kernel.answers), kernel.answers, d.Fds())
    ensures ok ==> FirstReadings(d, r, kernel.answers) && kernel.failures == old(kernel.failures)
    ensures !ok ==> r == d.ClearedData() && kernel.failures == old(kernel.failures) + [d.tid]
  {
    OwnsFour(d, kernel.open);
    r := d;
    var p;
    ok, p := FirstReadOf(kernel, r.cacheMisses);
    r := r.(cacheMisses := p);
    if ok {
      ok, p := FirstReadOf(kernel, r.cpuCycles);
      r := r.(cpuCycles := p);
    }
    if ok {
      ok, p := FirstReadOf(kernel, r.instructions);
      r := r.(instructions := p);
    }
    if ok {
      ok, p := FirstReadOf(kernel, r.cacheReferences);
      r := r.(cacheReferences := p);
    }
    if !ok {
      r := r.ClearedData();
    }
  }

  /** Either all four counts are the increases between the values read, or a read failed and all four are zero. */
  method SecondRead(kernel: Kernel, d: CacheMissData) returns (ok: bool, r: CacheMissData)
    requires d.OwnsIn(kernel.open)
    modifies kernel`clock, kernel`answers, kernel`failures
    ensures r.SameFds(d) && SameOutside(old(kernel.answers), kernel.answers, d.Fds())
    ensures ok ==> SecondReadings(d, r, kernel.answers) && kernel.failures == old(kernel.failures)
    ensures !ok ==> r == d.ClearedData() && kernel.failures == old(kernel.failures) + [d.tid]
  {
    OwnsFour(d, kernel.open);
    r := d;
    var p;
    ok, p := SecondReadOf(kernel, r.cacheMisses);
    r := r.(cacheMisses := p);
    if ok {
      ok, p := SecondReadOf(kernel, r.cpuCycles);
      r := r.(cpuCycles := p);
    }
    if ok {
      ok, p := SecondReadOf(kernel, r.instructions);
      r := r.(instructions := p);
    }
    if ok {
      ok, p := SecondReadOf(kernel, r.cacheReferences);
      r := r.(cacheReferences := p);
    }
    if !ok {
      r := r.ClearedData();
    }
  }

  lemma OwnsFour(d: CacheMissData, open: map<Fd, Counter>)
    requires d.OwnsIn(open)
    ensures d.cacheMisses.fd in open && open[d.cacheMisses.fd] == Counter(d.tid, CacheMisses)
    ensures d.cpuCycles.fd in open && open[d.cpuCycles.fd] == Counter(d.tid, CpuCycles)
    ensures d.instructions.fd in open && open[d.instructions.fd] == Counter(d.tid, Instructions)
    ensures d.cacheReferences.fd in open && open[d.cacheReferences.fd] == Counter(d.tid, CacheReferences)
  {
    assert d.cacheMisses == d.At(CacheMisses) && d.cpuCycles == d.At(CpuCycles)
        && d.instructions == d.At(Instructions) && d.cacheReferences == d.At(CacheReferences);
  }

  // ---------- descriptor accounting ----------

  // The open descriptors and the descriptors of the entries are the same, one for one.
  ghost predicate Agree(data: map<Tid, CacheMissData>, open: map<Fd, Counter>) {
    && (forall t <- data :: data[t].tid == t && data[t].OwnsIn(open))
    && (forall fd <- open :: open[fd].tid in data && data[open[fd].tid].At(open[fd].event).fd == fd)
  }

  lemma AgreeDistinct(data: map<Tid, CacheMissData>, open: map<Fd, Counter>, t: Tid)
    requires Agree(data, open) && t in data
    ensures data[t].Distinct() && data[t].Fds() <= open.Keys
  {
    var d := data[t];
    assert forall e :: open[d.At(e).fd] == Counter(t, e);
    assert d.cacheMisses == d.At(CacheMisses) && d.cpuCycles == d.At(CpuCycles)
        && d.instructions == d.At(Instructions) && d.cacheReferences == d.At(CacheReferences);
  }

  lemma AgreeAdd(data: map<Tid, CacheMissData>, open: map<Fd, Counter>, d: CacheMissData)
    requires Agree(data, open) && d.tid !in data && d.FreshFor(open)
    ensures Agree(data[d.tid := d], d.AddedTo(open))
  {
    assert d.cacheMisses == d.At(CacheMisses) && d.cpuCycles == d.At(CpuCycles)
        && d.instructions == d.At(Instructions) && d.cacheReferences == d.At(CacheReferences);
    assert d.OwnsIn(d.AddedTo(open)) by {
      forall e ensures d.At(e).fd in d.AddedTo(open) && d.AddedTo(open)[d.At(e).fd] == Counter(d.tid, e) {}
    }
    forall t | t in data ensures data[t].OwnsIn(d.AddedTo(open)) {
      forall e ensures d.AddedTo(open)[data[t].At(e).fd] == open[data[t].At(e).fd] {
        assert data[t].At(e).fd in open;
      }
    }
  }

  lemma AgreeRemove(data: map<Tid, CacheMissData>, open: map<Fd, Counter>, t: Tid)
    requires Agree(data, open) && t in data
    ensures Agree(data - {t}, open - data[t].Fds())
  {
    var d := data[t];
    assert d.cacheMisses == d.At(CacheMisses) && d.cpuCycles == d.At(CpuCycles)
        && d.instructions == d.At(Instructions) && d.cacheReferences == d.At(CacheReferences);
    forall fd | fd in d.Fds() ensures fd in open && open[fd].tid == t {}
    forall fd | fd in open && open[fd].tid == t ensures fd in d.Fds() {}
  }

  lemma AgreeUpdate(data: map<Tid, CacheMissData>, open: map<Fd, Counter>, d: CacheMissData)
    requires Agree(data, open) && d.tid in data && d.SameFds(data[d.tid])
    ensures Agree(data[d.tid := d], open)
  {
  }

  lemma FdsAreAt(d: CacheMissData, fd: Fd)
    ensures fd in d.Fds() <==> exists e :: d.At(e).fd == fd
  {
    assert d.cacheMisses == d.At(CacheMisses) && d.cpuCycles == d.At(CpuCycles)
        && d.instructions == d.At(Instructions) && d.cacheReferences == d.At(CacheReferences);
  }

  lemma OwnerOf(data: map<Tid, CacheMissData>, open: map<Fd, Counter>, t: Tid, fd: Fd)
    requires Agree(data, open) && t in data
    ensures fd in data[t].Fds() <==> fd in open && open[fd].tid == t
  {
    FdsAreAt(data[t], fd);
  }

  /** The open descriptors are the disjoint union of the entries' descriptors, four each. */
  lemma OpenIsDisjointUnion(data: map<Tid, CacheMissData>, open: map<Fd, Counter>)
    requires Agree(data, open)
    ensures forall t <- data :: data[t].Fds() <= open.Keys
    ensures forall fd <- open :: open[fd].tid in data && fd in data[open[fd].tid].Fds()
    ensures forall t, u | t in data && u in data && t != u :: data[t].Fds() !! data[u].Fds()
    ensures |open.Keys| == 4 * |data.Keys|
  {
    OpenCount(data, open);
    forall fd, t | t in data ensures fd in data[t].Fds() <==> fd in open && open[fd].tid == t {
      OwnerOf(data, open, t, fd);
    }
  }

  lemma EntriesApart(data: map<Tid, CacheMissData>, open: map<Fd, Counter>)
    requires Agree(data, open)
    ensures Apart(data)
  {
    OpenIsDisjointUnion(data, open);
  }

  lemma {:induction false} OpenCount(data: map<Tid, CacheMissData>, open: map<Fd, Counter>)
    requires Agree(data, open)
    ensures |open.Keys| == 4 * |data.Keys|
    decreases |data.Keys|
  {
    if data.Keys != {} {
      var t := AnyOf(data.Keys);
      AgreeRemove(data, open, t);
      AgreeDistinct(data, open, t);
      DistinctCount(data[t]);
      assert (open - data[t].Fds()).Keys == open.Keys - data[t].Fds();
      assert (data - {t}).Keys == data.Keys - {t};
      OpenCount(data - {t}, open - data[t].Fds());
    } else {
      assert forall fd :: fd !in open;
    }
  }

  lemma DistinctCount(d: CacheMissData)
    requires d.Distinct()
    ensures |d.Fds()| == 4
  {
    assert d.At(CacheMisses).fd != d.At(CpuCycles).fd && d.At(CacheMisses).fd != d.At(Instructions).fd
        && d.At(CacheMisses).fd != d.At(CacheReferences).fd && d.At(CpuCycles).fd != d.At(Instructions).fd
        && d.At(CpuCycles).fd != d.At(CacheReferences).fd && d.At(Instructions).fd != d.At(CacheReferences).fd;
  }

  // ---------- the sampler ----------

  // A round of first or second readings that has done the threads in done; reads failed for bad.
  ghost predicate ReadRound(second: bool, was: map<Tid, CacheMissData>, now: map<Tid, CacheMissData>,
                            done: set<Tid>, bad: set<Tid>, answers: map<Fd, nat>) {
    && now.Keys == was.Keys && bad <= done <= was.Keys
    && forall t <- was ::
         && (t !in done ==> now[t] == was[t])
         && (t in bad ==> now[t] == was[t].ClearedData())
         && (t in done && t !in bad ==> now[t].SameFds(was[t]) && ReadOk(second, was[t], now[t], answers))
  }

  ghost predicate ReadOk(second: bool, d: CacheMissData, d': CacheMissData, answers: map<Fd, nat>) {
    if second then SecondReadings(d, d', answers) else FirstReadings(d, d', answers)
  }

  // One entry after its readings: its descriptors stay; it is read, or cleared after a failure.
  ghost predicate ReadTo(second: bool, d: CacheMissData, d': CacheMissData, ok: bool, answers: map<Fd, nat>) {
    if ok then d'.SameFds(d) && ReadOk(second, d, d', answers) else d' == d.ClearedData()
  }

  lemma NoneRead(second: bool, data: map<Tid, CacheMissData>, answers: map<Fd, nat>)
    ensures ReadRound(second, data, data, {}, {}, answers)
  {
  }

  // Reading other descriptors leaves an entry's readings in the log.
  lemma ReadOkStays(second: bool, d: CacheMissData, d': CacheMissData, answers: map<Fd, nat>, answers': map<Fd, nat>, fds: set<Fd>)
    requires ReadOk(second, d, d', answers) && SameOutside(answers, answers', fds) && d.Fds() !! fds
    ensures ReadOk(second, d, d', answers')
  {
    forall e ensures AnswerOf(answers', d.At(e).fd) == AnswerOf(answers, d.At(e).fd) {
      FdsAreAt(d, d.At(e).fd);
    }
  }

  // The descriptors of different entries are different.
  ghost predicate Apart(data: map<Tid, CacheMissData>) {
    forall t, u | t in data && u in data && t != u :: data[t].Fds() !! data[u].Fds()
  }

  lemma ReadRoundStep(second: bool, was: map<Tid, CacheMissData>, now: map<Tid, CacheMissData>,
                      done: set<Tid>, bad: set<Tid>, t: Tid, d: CacheMissData, ok: bool, answers: map<Fd, nat>, answers': map<Fd, nat>)
    requires ReadRound(second, was, now, done, bad, answers) && t in was && t !in done && Apart(was)
    requires ReadTo(second, now[t], d, ok, answers') && SameOutside(answers, answers', now[t].Fds())
    ensures now[t] == was[t] && ReadRound(second, was, now[t := d], done + {t}, if ok then bad else bad + {t}, answers')
  {
    hide ReadOk, SameOutside;
    hide CacheMissData.SameFds, CacheMissData.ClearedData, CacheMissData.Fds;
    forall u | u in done && u !in bad ensures ReadOk(second, was[u], now[u], answers') {
      ReadOkStays(second, was[u], now[u], answers, answers', was[t].Fds());
    }
  }

  // The threads in bad were remembered as failed and queued for stop, possibly once more.
  ghost predicate Requeued(failed: set<Tid>, failed': set<Tid>, stop: seq<Tid>, stop': seq<Tid>, bad: set<Tid>) {
    failed' == failed + bad && SetOf(stop') == SetOf(stop) + bad
  }

  lemma NoneRequeued(failed: set<Tid>, stop: seq<Tid>)
    ensures Requeued(failed, failed, stop, stop, {})
  {
  }

  lemma RequeuedStep(failed: set<Tid>, mid: set<Tid>, stop: seq<Tid>, stopMid: seq<Tid>, bad: set<Tid>, t: Tid)
    requires Requeued(failed, mid, stop, stopMid, bad)
    ensures Requeued(failed, mid + {t}, stop, stopMid + [t], bad + {t})
  {
    SetOfAppend(stopMid, t);
  }

  // All of tids are watched now, or their open failed; nothing else was added.
  ghost predicate Started(was: set<Tid>, now: set<Tid>, tids: set<Tid>, failed: set<Tid>, failed': set<Tid>) {
    was <= now <= was + tids && failed' == failed - (now - was) + (tids - now)
  }

  lemma NoneStarted(watched: set<Tid>, failed: set<Tid>)
    ensures Started(watched, watched, {}, failed, failed)
  {
  }

  lemma StartedStep(was: set<Tid>, mid: set<Tid>, now: set<Tid>, tids: set<Tid>,
                    failed: set<Tid>, failedMid: set<Tid>, failed': set<Tid>, t: Tid)
    requires Started(was, mid, tids, failed, failedMid)
    requires if t in mid then now == mid && failed' == failedMid
             else (now == mid + {t} && failed' == failedMid - {t}) || (now == mid && failed' == failedMid + {t})
    ensures Started(was, now, tids + {t}, failed, failed')
  {
  }

  // The first times of a sampled entry: the values read from its descriptors, or zero after a failed read.
  ghost predicate FirstTimes(data: map<Tid, CacheMissData>, bad: set<Tid>, firsts: map<Fd, nat>) {
    forall t, e | t in data ::
      if t in bad then data[t].At(e).firstTime == 0 else AnswerOf(firsts, data[t].At(e).fd) == Some(data[t].At(e).firstTime)
  }

  // The counts of a sampled entry: the second value read from each descriptor minus the first, or 0 when it went back.
  // A failed second reading makes them zero; after a failed first one the whole second value is counted.
  ghost predicate Counted(data: map<Tid, CacheMissData>, badFirst: set<Tid>, badSecond: set<Tid>,
                          firsts: map<Fd, nat>, seconds: map<Fd, nat>) {
    forall t, e | t in data ::
      var p := data[t].At(e);
      if t in badSecond then p.count == 0
      else if t in badFirst then p.fd in seconds && p.count == seconds[p.fd]
      else p.fd in firsts && p.fd in seconds && p.count == (if seconds[p.fd] > firsts[p.fd] then seconds[p.fd] - firsts[p.fd] else 0)
  }

  lemma FirstTimesTaken(was: map<Tid, CacheMissData>, now: map<Tid, CacheMissData>, bad: set<Tid>, answers: map<Fd, nat>)
    requires ReadRound(false, was, now, was.Keys, bad, answers)
    ensures FirstTimes(now, bad, answers)
  {
    forall t, e | t in now
      ensures if t in bad then now[t].At(e).firstTime == 0 else AnswerOf(answers, now[t].At(e).fd) == Some(now[t].At(e).firstTime)
    {
    }
  }

  lemma CountsTaken(was: map<Tid, CacheMissData>, now: map<Tid, CacheMissData>, badFirst: set<Tid>, badSecond: set<Tid>,
                    firsts: map<Fd, nat>, seconds: map<Fd, nat>)
    requires FirstTimes(was, badFirst, firsts) && ReadRound(true, was, now, was.Keys, badSecond, seconds)
    ensures Counted(now, badFirst, badSecond, firsts, seconds)
  {
    forall t, e | t in now ensures now[t].At(e).fd == was[t].At(e).fd {
    }
    forall t, e | t in now && t !in badSecond
      ensures AnswerOf(seconds, was[t].At(e).fd) == Some(now[t].At(e).secondTime)
      ensures now[t].At(e).count == Increase(was[t].At(e).firstTime, now[t].At(e).secondTime)
    {
    }
  }

  class CacheMiss {
    const kernel: Kernel
    var data: map<Tid, CacheMissData>
    var toStart: seq<Tid>
    var toStop: seq<Tid>
    var hasData: bool
    // Threads whose open or a read failed since they were last added.
    ghost var failed: set<Tid>

    // No descriptor leaks, none is shared, none was ever closed twice; a thread counts as failed only after
    // an open or a read of one of its descriptors failed.
    ghost predicate Valid()
      reads this`data, this`failed, kernel
    {
      Agree(data, kernel.open) && kernel.badCloses == 0 && failed <= SetOf(kernel.failures)
    }

    constructor (kernel: Kernel)
      requires kernel.open == map[] && kernel.badCloses == 0
      ensures Valid() && this.kernel == kernel
      ensures data == map[] && toStart == [] && toStop == [] && failed == {}
    {
      this.kernel := kernel;
      data, toStart, toStop, hasData, failed := map[], [], [], false, {};
    }

    method StartWatching(tid: Tid)
      modifies this`toStart
      ensures toStart == old(toStart) + [tid]
    {
      toStart := toStart + [tid];
    }

    method StopWatching(tid: Tid)
      modifies this`toStop
      ensures toStop == old(toStop) + [tid]
    {
      toStop := toStop + [tid];
    }

    // One queued start: a thread not watched yet is watched unless an open fails.
    method StartOne(tid: Tid)
      requires Valid()
      modifies this`data, this`failed, kernel
      ensures Valid()
      ensures tid in old(data) ==> data == old(data) && failed == old(failed)
      ensures tid !in old(data) ==>
                if kernel.failures == old(kernel.failures) then data.Keys == old(data.Keys) + {tid} && failed == old(failed) - {tid}
                else data == old(data) && failed == old(failed) + {tid}
    {
      if tid !in data {
        SetOfAppend(kernel.failures, tid);
        var ok, d := OpenFds(kernel, tid);
        if ok {
          AgreeAdd(data, old(kernel.open), d);
          data := data[tid := d];
          failed := failed - {tid};
        } else {
          failed := failed + {tid};
        }
      }
    }

    /** Every queued thread ends up watched, except one whose open failed. */
    method DrainStarts()
      requires Valid()
      modifies this`data, this`failed, this`toStart, kernel
      ensures Valid() && toStart == [] && Started(old(data.Keys), data.Keys, SetOf(old(toStart)), old(failed), failed)
    {
      hide Agree, Started;
      var i := 0;
      NoneStarted(data.Keys, failed);
      assert SetOf(toStart[..0]) == {};
      while i < |toStart|
        invariant i <= |toStart| && toStart == old(toStart) && Valid()
        invariant Started(old(data.Keys), data.Keys, SetOf(toStart[..i]), old(failed), failed)
      {
        ghost var now, fails := data.Keys, failed;
        SetOfAppend(toStart[..i], toStart[i]);
        StartOne(toStart[i]);
        StartedStep(old(data.Keys), now, data.Keys, SetOf(toStart[..i]), old(failed), fails, failed, toStart[i]);
        assert toStart[..i + 1] == toStart[..i] + [toStart[i]];
        i := i + 1;
      }
      assert toStart[..i] == toStart;
      toStart := [];
    }

    method StopOne(tid: Tid)
      requires Valid()
      modifies this`data, kernel
      ensures Valid() && data == old(data) - {tid}
    {
      if tid in data {
        AgreeDistinct(data, kernel.open, tid);
        AgreeRemove(data, kernel.open, tid);
        CloseFds(kernel, data[tid]);
        data := data - {tid};
      }
    }

    /** Exactly the queued threads are dropped and their descriptors closed. */
    method DrainStops()
      requires Valid()
      modifies this`data, this`toStop, kernel
      ensures Valid() && toStop == [] && data == old(data) - SetOf(old(toStop))
    {
      hide Agree;
      var i := 0;
      while i < |toStop|
        invariant i <= |toStop| && toStop == old(toStop) && Valid()
        invariant data == old(data) - SetOf(toStop[..i])
      {
        assert toStop[..i + 1] == toStop[..i] + [toStop[i]];
        SetOfAppend(toStop[..i], toStop[i]);
        StopOne(toStop[i]);
        i := i + 1;
      }
      assert toStop[..i] == toStop;
      toStop := [];
    }

    // The first or second readings of one entry; a thread with a failed read is queued for stop.
    method ReadOne(second: bool, tid: Tid) returns (ok: bool)
      requires Valid() && tid in data
      modifies this`data, this`toStop, this`failed, kernel`clock, kernel`answers, kernel`failures
      ensures Valid() && tid in data && data == old(data)[tid := data[tid]]
      ensures ReadTo(second, old(data)[tid], data[tid], ok, kernel.answers)
      ensures SameOutside(old(kernel.answers), kernel.answers, old(data)[tid].Fds())
      ensures ok <==> kernel.failures == old(kernel.failures)
      ensures if ok then failed == old(failed) && toStop == old(toStop)
              else failed == old(failed) + {tid} && toStop == old(toStop) + [tid]
    {
      var d;
      SetOfAppend(kernel.failures, tid);
      if second {
        ok, d := SecondRead(kernel, data[tid]);
      } else {
        ok, d := FirstRead(kernel, data[tid]);
      }
      AgreeUpdate(data, kernel.open, d);
      data := data[tid := d];
      if !ok {
        toStop := toStop + [tid];
        failed := failed + {tid};
      }
    }

    /** First or second readings of all entries, in any order; bad are the threads with a failed read. The times are
        the values read from the entries' own descriptors; after second readings the counts are the increases, or
        zero after a failed read. */
    method ReadAll(second: bool) returns (ghost bad: set<Tid>)
      requires Valid()
      modifies this`data, this`toStop, this`failed, kernel`clock, kernel`answers, kernel`failures
      ensures Valid() && ReadRound(second, old(data), data, old(data.Keys), bad, kernel.answers)
      ensures Requeued(old(failed), failed, old(toStop), toStop, bad)
    {
      hide Agree, ReadRound, Requeued, ReadTo, SameOutside, Apart, SetOf;
      EntriesApart(data, kernel.open);
      bad := {};
      var pending := data.Keys;
      ghost var done := {};
      NoneRead(second, data, kernel.answers);
      NoneRequeued(failed, toStop);
      while pending != {}
        invariant pending <= old(data.Keys) && pending !! done && done + pending == old(data.Keys) && data.Keys == old(data.Keys)
        invariant Valid() && ReadRound(second, old(data), data, done, bad, kernel.answers)
        invariant Requeued(old(failed), failed, old(toStop), toStop, bad)
        decreases |pending|
      {
        var tid := Pick(pending);
        ghost var now, stop, fails, answers := data, toStop, failed, kernel.answers;
        var ok := ReadOne(second, tid);
        ReadRoundStep(second, old(data), now, done, bad, tid, data[tid], ok, answers, kernel.answers);
        RequeuedStep(old(failed), fails, old(toStop), stop, bad, tid);
        pending, done := pending - {tid}, done + {tid};
        if !ok {
          bad := bad + {tid};
        }
      }
      assert done == old(data.Keys);
    }

    method StartSample() returns (ghost bad: set<Tid>)
      requires Valid()
      modifies this`data, this`toStart, this`toStop, this`failed, kernel
      ensures Valid() && toStart == [] && bad <= data.Keys && SetOf(toStop) == bad
      ensures FirstTimes(data, bad, kernel.answers)
      ensures data.Keys <= (old(data.Keys) + SetOf(old(toStart))) - SetOf(old(toStop))
      ensures old(data.Keys) - SetOf(old(toStop)) <= data.Keys
      ensures SetOf(old(toStart)) !! SetOf(old(toStop)) ==>
                failed == old(failed) - (data.Keys - old(data.Keys)) + (SetOf(old(toStart)) - old(data.Keys) - data.Keys) + bad
    {
      hide FirstTimes, ReadOk;
      DrainStarts();
      DrainStops();
      ghost var was := data;
      bad := ReadAll(false);
      FirstTimesTaken(was, data, bad, kernel.answers);
    }

    /** One round: the queues are drained and every watched entry is read twice. Every count is the second value read
        from its descriptor minus the first; the failed readers are queued for stop. */
    method Refresh() returns (ghost badFirst: set<Tid>, ghost badSecond: set<Tid>, ghost firsts: map<Fd, nat>)
      requires Valid()
      modifies this, kernel
      ensures Valid() && toStart == [] && hasData
      ensures Counted(data, badFirst, badSecond, firsts, kernel.answers)
      ensures badFirst + badSecond <= data.Keys && SetOf(toStop) == badFirst + badSecond
      ensures data.Keys <= (old(data.Keys) + SetOf(old(toStart))) - SetOf(old(toStop))
      ensures old(data.Keys) - SetOf(old(toStop)) <= data.Keys
      ensures SetOf(old(toStart)) !! SetOf(old(toStop)) ==>
                failed == old(failed) - (data.Keys - old(data.Keys)) + (SetOf(old(toStart)) - old(data.Keys) - data.Keys)
                          + badFirst + badSecond
    {
      hide Agree, FirstTimes, ReadOk, Counted;
      badFirst := StartSample();
      firsts := kernel.answers;
      ghost var was := data;
      badSecond := ReadAll(true);
      CountsTaken(was, data, badFirst, badSecond, firsts, kernel.answers);
      hasData := true;
    }

    /** Closes every descriptor and forgets everything. */
    method Clear()
      requires Valid()
      modifies this, kernel
      ensures Valid() && kernel.open == map[]
      ensures data == map[] && toStart == [] && toStop == [] && failed == {} && !hasData
    {
      while data.Keys != {}
        invariant Valid()
        decreases |data.Keys|
      {
        var tid := Pick(data.Keys);
        assert (data - {tid}).Keys == data.Keys - {tid};
        StopOne(tid);
      }
      OpenCount(data, kernel.open);
      toStart, toStop, hasData, failed := [], [], false, {};
    }
  }
}

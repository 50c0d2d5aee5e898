/** System, process and thread CPU usage from truncated kernel counters
    (src/sysinfo/vm/dynamic/cpu_usage.cpp). */
module CpuUsageSampler {
  import opened Sets
  import opened MachineWords

  type Pid = int

  // Conversion of an unsigned value to a 32-bit int.
  function ToInt32(x: int): int { if x % U32 < U32 / 2 then x % U32 else x % U32 - U32 }

  // Conversion of a floating-point value to int, towards zero.
  function Truncate(x: real): int { if x >= 0.0 then x.Floor else -(-x).Floor }

  // Named so that proofs can treat products and quotients as atoms.
  function Product(a: nat, b: nat): nat { a * b }

  function Quotient(a: nat, n: nat): nat
    requires n > 0
  {
    a / n
  }

  // ---------- wrapping counters ----------

  // A reading kept in an unsigned 32-bit field, and the difference of two such fields.
  function Truncated(x: nat): nat { x % U32 }

  function Difference32(later: nat, earlier: nat): nat { (later - earlier) % U32 }

  /** The difference of two truncated readings is the true increase, also across a wrap-around. */
  lemma WrappedDelta(earlier: nat, later: nat)
    requires earlier <= later < earlier + U32
    ensures Difference32(Truncated(later), Truncated(earlier)) == later - earlier
  {
    var q, r := earlier / U32, later / U32;
    assert r == q || r == q + 1;
  }

  lemma TruncatedOnce(x: nat)
    ensures Truncated(x % U64) == Truncated(x) && Truncated(0) == 0
  {
  }

  /** A counter's field holds its reading modulo 2^32, and an int the value of its 32 bits in two's complement. */
  lemma Words(x: int)
    ensures x >= 0 ==> 0 <= Truncated(x) <= 4294967295 && (x - Truncated(x)) % 4294967296 == 0
    ensures -2147483648 <= ToInt32(x) <= 2147483647 && (x - ToInt32(x)) % 4294967296 == 0
  {
  }

  // The deltas since some earlier clocks are the true ones if the clocks never ran back and advanced by less than 2^32.
  ghost predicate TrueDeltas(busy: nat, idle: nat, busy': nat, idle': nat, totalDelta: nat, idleDelta: nat) {
    busy <= busy' && idle <= idle' && busy' + idle' < busy + idle + U32 ==>
      totalDelta == busy' + idle' - (busy + idle) && idleDelta == idle' - idle && idleDelta <= totalDelta
  }

  // ---------- system usage ----------

  function SystemUsage(totalOld: nat, totalDelta: nat, idleDelta: nat): int {
    if totalOld == 0 || totalDelta == 0 then 0
    else Truncate((1.0 - idleDelta as real / totalDelta as real) * 100.0)
  }

  /** The usage is the busy percentage rounded down, between 0 and 100. */
  lemma SystemUsageIsBusyShare(totalOld: nat, totalDelta: nat, idleDelta: nat)
    requires totalOld != 0 && totalDelta != 0 && idleDelta <= totalDelta
    ensures var u := SystemUsage(totalOld, totalDelta, idleDelta);
            0 <= u <= 100 && u * totalDelta <= (totalDelta - idleDelta) * 100 < (u + 1) * totalDelta
  {
    var t, i := totalDelta as real, idleDelta as real;
    var x := (1.0 - i / t) * 100.0;
    BusyShare(t, i);
    FloorShare(x.Floor, x, totalDelta, (totalDelta - idleDelta) * 100);
  }

  // The usage in terms of the clocks before and after: 0 on the first refresh and when the clocks did not advance,
  // otherwise the busy percentage of the time that passed, rounded down.
  ghost predicate BusyPercent(u: int, total: nat, busy: nat, idle: nat, busy': nat, idle': nat) {
    && (total == 0 ==> u == 0)
    && (busy <= busy' && idle <= idle' && busy' + idle' < busy + idle + U32 ==>
          && 0 <= u <= 100
          && (busy' == busy && idle' == idle ==> u == 0)
          && (total != 0 && busy' + idle' > busy + idle ==>
                u * (busy' + idle' - busy - idle) <= (busy' - busy) * 100 < (u + 1) * (busy' + idle' - busy - idle)))
  }

  lemma SystemUsageIsBusyPercent(total: nat, busy: nat, idle: nat, busy': nat, idle': nat, totalDelta: nat, idleDelta: nat)
    requires TrueDeltas(busy, idle, busy', idle', totalDelta, idleDelta)
    ensures BusyPercent(SystemUsage(total, totalDelta, idleDelta), total, busy, idle, busy', idle')
  {
    if total != 0 && totalDelta != 0 && idleDelta <= totalDelta {
      SystemUsageIsBusyShare(total, totalDelta, idleDelta);
    }
    hide Truncate;
  }

  lemma FloorShare(u: int, x: real, n: nat, share: int)
    requires u as real <= x < (u + 1) as real && n > 0 && x * n as real == share as real
    ensures u * n <= share < (u + 1) * n
  {
    RealScale(u as real, x, n as real);
    RealScaleStrict(x, (u + 1) as real, n as real);
    RealProduct(u, n);
    RealProduct(u + 1, n);
  }

  lemma RealProduct(a: int, b: int)
    ensures a as real * b as real == (a * b) as real
  {
  }

  lemma BusyShare(t: real, i: real)
    requires 0.0 <= i <= t && t > 0.0
    ensures 0.0 <= (1.0 - i / t) * 100.0 <= 100.0 && (1.0 - i / t) * 100.0 * t == (t - i) * 100.0
  {
    var q := i / t;
    assert q * t == i;
    if q < 0.0 { RealScaleStrict(q, 0.0, t); }
    if q > 1.0 { RealScaleStrict(1.0, q, t); }
  }

  lemma RealScale(a: real, b: real, t: real)
    requires a <= b && t > 0.0
    ensures a * t <= b * t
  {
  }

  lemma RealScaleStrict(a: real, b: real, t: real)
    requires a < b && t > 0.0
    ensures a * t < b * t
  {
  }

  // ---------- thread usage ----------

  // One thread, as its entry under /proc reports it.
  datatype Task = Task(tid: Pid, tgid: Pid, processor: int, utime: nat, stime: nat) {
    function ProcTime(): nat { (utime + stime) % U64 }
  }

  datatype Thread = Thread(valid: bool, proctimeNew: nat, proctimeOld: nat, cpuUsage: int, processor: int, tgid: Pid) {
    // The unsigned 64-bit difference of the last two sightings.
    function Delta(): nat { (proctimeNew - proctimeOld) % U64 }

    function Update(task: Task, sysCpu: nat, cpuNum: nat): Thread {
      var old' := if proctimeNew == 0 then task.ProcTime() else proctimeNew;
      var t := this.(processor := task.processor, tgid := task.tgid, proctimeNew := task.ProcTime(), proctimeOld := old');
      t.(cpuUsage := Usage(t.Delta() % U32, sysCpu, cpuNum))
    }

    function ClearedData(): Thread {
      this.(proctimeNew := 0, proctimeOld := 0, cpuUsage := -1, processor := -1, tgid := -1)
    }
  }

  const NEW_THREAD := Thread(false, 0, 0, -1, -1, -1)

  // The unsigned 32-bit expression ticks * 100 * cpuNum / sysCpu, converted to int.
  function Usage(ticks: nat, sysCpu: nat, cpuNum: nat): int {
    if sysCpu == 0 then 0 else Share(Scaled(ticks, cpuNum), sysCpu)
  }

  function Scaled(ticks: nat, cpuNum: nat): nat { ticks * 100 % U32 * cpuNum % U32 }

  function Share(scaled: nat, total: nat): int
    requires total > 0
  {
    ToInt32(Quotient(scaled, total))
  }

  // The deltas of a thread over consecutive sightings.
  ghost function SumOfDeltas(t: Thread, tasks: seq<Task>): nat
    decreases |tasks|
  {
    if tasks == [] then 0 else
    var t' := t.Update(tasks[0], 0, 0);
    t'.Delta() + SumOfDeltas(t', tasks[1..])
  }

  // The times of the sightings: user time plus system time, as an unsigned 64-bit number.
  ghost function TimesOf(tasks: seq<Task>): seq<nat> {
    seq(|tasks|, i requires 0 <= i < |tasks| => (tasks[i].utime + tasks[i].stime) % U64)
  }

  ghost function FirstNonzero(times: seq<nat>): nat {
    if times == [] then 0 else if times[0] != 0 then times[0] else FirstNonzero(times[1..])
  }

  predicate Monotone(times: seq<nat>) { forall i, j | 0 <= i < j < |times| :: times[i] <= times[j] }

  /** Over consecutive sightings the deltas add up to the increase since the first nonzero time. */
  lemma DeltasTelescope(tasks: seq<Task>)
    requires tasks != [] && Monotone(TimesOf(tasks))
    ensures SumOfDeltas(NEW_THREAD, tasks) == TimesOf(tasks)[|tasks| - 1] - FirstNonzero(TimesOf(tasks))
  {
    TelescopeFrom(NEW_THREAD, tasks);
  }

  lemma {:induction false} TelescopeFrom(t: Thread, tasks: seq<Task>)
    requires tasks != [] && Monotone(TimesOf(tasks)) && t.proctimeNew <= TimesOf(tasks)[0]
    ensures SumOfDeltas(t, tasks) == TimesOf(tasks)[|tasks| - 1] -
                                     (if t.proctimeNew != 0 then t.proctimeNew else FirstNonzero(TimesOf(tasks)))
    decreases |tasks|
  {
    var t', times := t.Update(tasks[0], 0, 0), TimesOf(tasks);
    UpdatedDelta(t, tasks[0], 0, 0);
    hide Thread.Update, Thread.Delta;
    assert times[1..] == TimesOf(tasks[1..]);
    if |tasks| > 1 {
      TelescopeFrom(t', tasks[1..]);
    } else {
      assert tasks[1..] == [] && times[1..] == [];
    }
  }

  /** A sighting stores the task's user and system time, processor and process; the delta is the increase since the
      last stored time, and 0 if there is none. */
  lemma UpdatedDelta(t: Thread, task: Task, sysCpu: nat, cpuNum: nat)
    ensures var now, time := t.Update(task, sysCpu, cpuNum), (task.utime + task.stime) % U64;
            && now.proctimeNew == time && now.processor == task.processor && now.tgid == task.tgid
            && (t.proctimeNew == 0 ==> now.Delta() == 0)
            && (0 < t.proctimeNew <= time ==> now.Delta() == time - t.proctimeNew)
            && now.cpuUsage == Usage(now.Delta() % U32, sysCpu, cpuNum)
  {
    hide Usage;
  }

  // ---------- process usage ----------

  // The sum of the threads' deltas, kept in a 32-bit int.
  function SumInt32(deltas: seq<nat>): int {
    if deltas == [] then 0
    else ToInt32(SumInt32(deltas[..|deltas| - 1]) + ToInt32(deltas[|deltas| - 1]))
  }

  function Average(sum: int, cnt: nat): nat
    requires cnt > 0
  {
    Quotient(sum % U32, cnt)
  }

  function ProcessUsage(deltas: seq<nat>, totalOld: nat, totalDelta: nat, cpuNum: nat): int
    requires deltas != []
  {
    if totalOld == 0 || totalDelta == 0 then 0
    else Share(Scaled(Average(SumInt32(deltas), |deltas|), cpuNum), totalDelta)
  }

  ghost function Sum(s: seq<nat>): nat { if s == [] then 0 else Sum(s[..|s| - 1]) + s[|s| - 1] }

  // No operation on these deltas overflows.
  ghost predicate Fits(deltas: seq<nat>, cpuNum: nat) {
    Sum(deltas) < U32 / 2 && forall i | 0 <= i < |deltas| :: deltas[i] * 100 * cpuNum < U32 / 2 && deltas[i] * 100 < U32
  }

  lemma {:induction false} SumInt32IsSum(deltas: seq<nat>)
    requires Sum(deltas) < U32 / 2
    ensures SumInt32(deltas) == Sum(deltas)
  {
    hide ToInt32;
    if deltas != [] {
      var init, last := deltas[..|deltas| - 1], deltas[|deltas| - 1];
      assert Sum(deltas) == Sum(init) + last;
      SumInt32IsSum(init);
      SmallInt32(last);
      SmallInt32(Sum(deltas));
    }
  }

  lemma SmallInt32(x: nat)
    requires x < U32 / 2
    ensures ToInt32(x) == x
  {
  }

  lemma ProductMonotone(a: nat, b: nat, n: nat)
    ensures a <= b ==> Product(a, n) <= Product(b, n)
    ensures Product(a + 1, n) == Product(a, n) + n
    ensures Product(a, n + 1) == Product(a, n) + a
  {
    if a <= b { assert (b - a) * n >= 0; }
  }

  lemma QuotientBounds(a: nat, n: nat)
    requires n > 0
    ensures Product(Quotient(a, n), n) <= a < Product(Quotient(a, n), n) + n
  {
  }

  lemma QuotientMonotone(a: nat, b: nat, n: nat)
    requires a <= b && n > 0
    ensures Quotient(a, n) <= Quotient(b, n)
  {
    hide Product, Quotient;
    QuotientBounds(a, n);
    QuotientBounds(b, n);
    ProductMonotone(Quotient(b, n) + 1, Quotient(a, n), n);
    ProductMonotone(Quotient(b, n), 0, n);
  }

  lemma QuotientOfProduct(a: nat, n: nat)
    requires n > 0
    ensures Quotient(Product(a, n), n) == a
  {
    hide Product, Quotient;
    var q := Quotient(Product(a, n), n);
    QuotientBounds(Product(a, n), n);
    ProductMonotone(q + 1, a, n);
    ProductMonotone(q, 0, n);
    ProductMonotone(a + 1, q, n);
    ProductMonotone(a, 0, n);
  }

  lemma ProductAtLeast(a: nat, n: nat)
    requires n > 0
    ensures Product(a, n) >= a
  {
    assert a * (n - 1) >= 0;
  }

  lemma QuotientAtMost(a: nat, n: nat)
    requires n > 0
    ensures Quotient(a, n) <= a
  {
    ProductAtLeast(a, n);
    hide Product, Quotient;
    QuotientBounds(a, n);
    ProductMonotone(a + 1, Quotient(a, n), n);
    ProductMonotone(a, 0, n);
  }

  // The average lies between some element and some element.
  lemma {:induction false} AverageBetween(s: seq<nat>) returns (lo: nat, hi: nat)
    requires |s| > 0
    ensures lo < |s| && hi < |s| && Product(s[lo], |s|) <= Sum(s) <= Product(s[hi], |s|)
  {
    var n, last := |s| - 1, s[|s| - 1];
    var init := s[..n];
    if n == 0 {
      lo, hi := 0, 0;
      assert Sum(init) == 0;
    } else {
      lo, hi := AverageBetween(init);
      hide Product;
      assert init[lo] == s[lo] && init[hi] == s[hi];
      assert Sum(s) == Sum(init) + last;
      ProductMonotone(s[lo], last, n);
      ProductMonotone(s[hi], last, n);
      ProductMonotone(last, s[lo], n);
      ProductMonotone(last, s[hi], n);
      if last < s[lo] { lo := n; }
      if last > s[hi] { hi := n; }
    }
  }

  lemma ScaledFits(ticks: nat, cpuNum: nat)
    requires ticks * 100 * cpuNum < U32 / 2 && ticks * 100 < U32
    ensures Scaled(ticks, cpuNum) == ticks * 100 * cpuNum
  {
    var x := ticks * 100;
    assert x % U32 == x;
    assert x * cpuNum % U32 == x * cpuNum;
  }

  lemma ShareMonotone(x: nat, y: nat, total: nat)
    requires x <= y < U32 / 2 && total > 0
    ensures Share(x, total) <= Share(y, total)
  {
    hide Quotient;
    QuotientMonotone(x, y, total);
    QuotientAtMost(x, total);
    QuotientAtMost(y, total);
  }

  lemma UsageMonotone(a: nat, b: nat, total: nat, cpuNum: nat)
    requires a <= b && b * 100 * cpuNum < U32 / 2 && b * 100 < U32 && total > 0
    ensures Share(Scaled(a, cpuNum), total) <= Share(Scaled(b, cpuNum), total)
  {
    var x, y := a * 100, b * 100;
    ProductMonotone(x, y, cpuNum);
    ScaledFits(a, cpuNum);
    ScaledFits(b, cpuNum);
    ShareMonotone(x * cpuNum, y * cpuNum, total);
  }

  /** Without overflow the usage is the thread's share of the machine's time in percent of one CPU, rounded down,
      at most 100 for every CPU. */
  lemma UsageIsPercentage(ticks: nat, sysCpu: nat, cpuNum: nat)
    requires sysCpu > 0 && ticks * 100 < U32 && Product(ticks, Product(100, cpuNum)) < U32 / 2
    ensures var u := Usage(ticks, sysCpu, cpuNum);
            && u >= 0 && Product(u, sysCpu) <= Product(ticks, Product(100, cpuNum)) < Product(u + 1, sysCpu)
            && (ticks <= sysCpu ==> u <= Product(100, cpuNum))
  {
    var x := Product(ticks, Product(100, cpuNum));
    UsageIsQuotient(ticks, sysCpu, cpuNum);
    hide Product, Quotient, Usage;
    QuotientBounds(x, sysCpu);
    ProductMonotone(Quotient(x, sysCpu), 0, sysCpu);
    if ticks <= sysCpu {
      QuotientOfLess(ticks, sysCpu, Product(100, cpuNum));
    }
  }

  lemma UsageIsQuotient(ticks: nat, sysCpu: nat, cpuNum: nat)
    requires sysCpu > 0 && ticks * 100 < U32 && Product(ticks, Product(100, cpuNum)) < U32 / 2
    ensures Usage(ticks, sysCpu, cpuNum) == Quotient(Product(ticks, Product(100, cpuNum)), sysCpu)
  {
    Regrouped(ticks, cpuNum);
    ScaledFits(ticks, cpuNum);
    hide Product, Quotient, Scaled, Share;
    ShareIsQuotient(ticks * 100 * cpuNum, sysCpu);
  }

  lemma ShareIsQuotient(x: nat, total: nat)
    requires x < U32 / 2 && total > 0
    ensures Share(x, total) == Quotient(x, total)
  {
    hide Quotient;
    QuotientAtMost(x, total);
  }

  lemma QuotientOfLess(a: nat, n: nat, factor: nat)
    requires a <= n && n > 0
    ensures Quotient(Product(a, factor), n) <= factor
  {
    ProductCommutes(n, factor);
    hide Product, Quotient;
    ProductMonotone(a, n, factor);
    QuotientMonotone(Product(a, factor), Product(n, factor), n);
    QuotientOfProduct(factor, n);
  }

  lemma Regrouped(ticks: nat, cpuNum: nat)
    ensures ticks * 100 * cpuNum == Product(ticks, Product(100, cpuNum))
  {
  }

  lemma ProductCommutes(a: nat, b: nat)
    ensures Product(a, b) == Product(b, a)
  {
  }

  /** Without overflow a process's usage lies between the usages of two of its threads. */
  lemma ProcessBetweenThreads(deltas: seq<nat>, totalOld: nat, totalDelta: nat, cpuNum: nat) returns (lo: nat, hi: nat)
    requires |deltas| > 0 && Fits(deltas, cpuNum)
    ensures lo < |deltas| && hi < |deltas|
    ensures var sysCpu := if totalOld == 0 then 0 else totalDelta;
            Usage(deltas[lo], sysCpu, cpuNum) <= ProcessUsage(deltas, totalOld, totalDelta, cpuNum)
            <= Usage(deltas[hi], sysCpu, cpuNum)
  {
    var average;
    lo, hi, average := AverageOfFits(deltas);
    if totalOld != 0 && totalDelta != 0 {
      assert deltas[hi] * 100 * cpuNum < U32 / 2 && deltas[hi] * 100 < U32;
      AverageFits(average, deltas[hi], cpuNum);
      hide Share, Scaled;
      UsageMonotone(deltas[lo], average, totalDelta, cpuNum);
      UsageMonotone(average, deltas[hi], totalDelta, cpuNum);
    }
  }

  /** Without overflow the usage of a process is that of its threads' average delta. */
  lemma ProcessUsageOfAverage(deltas: seq<nat>, totalOld: nat, totalDelta: nat, cpuNum: nat)
    requires |deltas| > 0 && Fits(deltas, cpuNum)
    ensures ProcessUsage(deltas, totalOld, totalDelta, cpuNum) ==
            (if totalOld == 0 then 0 else Usage(Sum(deltas) / |deltas|, totalDelta, cpuNum))
  {
    SumInt32IsSum(deltas);
    AverageIsQuotient(Sum(deltas), |deltas|);
    hide Sum, SumInt32, Share, Scaled, Average;
  }

  /** Usages that overflow: the product wraps around before the division, and the quotient turns negative. A delta too
      large for an int is added as a negative number, and a negative sum is divided as an unsigned one. */
  lemma UsageWraps()
    ensures Usage(42949673, 4, 1) == 1 && Usage(21474837, 104, 2) == 1 && Usage(42949672, 1, 1) == -96
    ensures SumInt32([4294967295]) == -1 && Average(-1, 7) == 613566756
  {
    assert [4294967295][..0] == [];
    assert SumInt32([]) == 0;
  }

  lemma AverageFits(average: nat, most: nat, cpuNum: nat)
    requires average <= most && most * 100 * cpuNum < U32 / 2 && most * 100 < U32
    ensures average * 100 * cpuNum < U32 / 2 && average * 100 < U32
  {
    ProductMonotone(average * 100, most * 100, cpuNum);
  }

  lemma AverageOfFits(deltas: seq<nat>) returns (lo: nat, hi: nat, average: nat)
    requires |deltas| > 0 && Sum(deltas) < U32 / 2
    ensures lo < |deltas| && hi < |deltas| && deltas[lo] <= average <= deltas[hi]
    ensures average == Average(SumInt32(deltas), |deltas|)
  {
    hide *;
    lo, hi := AverageBetween(deltas);
    SumInt32IsSum(deltas);
    average := Quotient(Sum(deltas), |deltas|);
    AverageIsQuotient(Sum(deltas), |deltas|);
    QuotientBetween(Sum(deltas), |deltas|, deltas[lo], deltas[hi]);
  }

  lemma AverageIsQuotient(sum: nat, cnt: nat)
    requires cnt > 0 && sum < U32 / 2
    ensures Average(sum, cnt) == Quotient(sum, cnt)
  {
  }

  lemma QuotientBetween(sum: nat, n: nat, lo: nat, hi: nat)
    requires n > 0 && Product(lo, n) <= sum <= Product(hi, n)
    ensures lo <= Quotient(sum, n) <= hi
  {
    hide Product, Quotient;
    QuotientMonotone(Product(lo, n), sum, n);
    QuotientMonotone(sum, Product(hi, n), n);
    QuotientOfProduct(lo, n);
    QuotientOfProduct(hi, n);
  }

  // ---------- the sampler ----------

  function SysCpuOf(totalOld: nat, totalDelta: nat): nat { if totalOld == 0 then 0 else totalDelta }

  // A watched process as /proc lists it: its pid and its tasks, the main task among them.
  datatype Proc = Proc(pid: Pid, tasks: seq<Task>)

  // Every task and every process is listed once; a listed process has a task.
  predicate Listing(procs: seq<Proc>) {
    && (forall i | 0 <= i < |procs| :: procs[i].tasks != [])
    && (forall i, j | 0 <= i < j < |procs| :: procs[i].pid != procs[j].pid)
    && (forall i, j, a, b | 0 <= i < |procs| && 0 <= j < |procs| && 0 <= a < |procs[i].tasks| && 0 <= b < |procs[j].tasks| ::
          procs[i].tasks[a].tid == procs[j].tasks[b].tid ==> i == j && a == b)
  }

  // A thread after this round's reading of its task line.
  function Seen(was: map<Pid, Thread>, task: Task, sysCpu: nat, cpuNum: nat): Thread {
    (if task.tid in was then was[task.tid] else NEW_THREAD).Update(task, sysCpu, cpuNum).(valid := true)
  }

  function DeltasOf(was: map<Pid, Thread>, tasks: seq<Task>, sysCpu: nat, cpuNum: nat): seq<nat> {
    seq(|tasks|, i requires 0 <= i < |tasks| => Seen(was, tasks[i], sysCpu, cpuNum).Delta())
  }

  /** In terms of the thread table after a pass: without overflow, the usage reported for a process lies
      between the usages reported for two of its threads. */
  lemma ReportedUsageBetween(was: map<Pid, Thread>, tasks: seq<Task>, totalOld: nat, totalDelta: nat, cpuNum: nat)
    returns (a: nat, b: nat)
    requires |tasks| > 0 && Fits(DeltasOf(was, tasks, SysCpuOf(totalOld, totalDelta), cpuNum), cpuNum)
    ensures a < |tasks| && b < |tasks|
    ensures var sysCpu := SysCpuOf(totalOld, totalDelta);
            Seen(was, tasks[a], sysCpu, cpuNum).cpuUsage
            <= ProcessUsage(DeltasOf(was, tasks, sysCpu, cpuNum), totalOld, totalDelta, cpuNum)
            <= Seen(was, tasks[b], sysCpu, cpuNum).cpuUsage
  {
    var sysCpu := SysCpuOf(totalOld, totalDelta);
    var deltas := DeltasOf(was, tasks, sysCpu, cpuNum);
    hide Usage, ProcessUsage, Fits, Seen;
    hide Thread.Delta;
    a, b := ProcessBetweenThreads(deltas, totalOld, totalDelta, cpuNum);
    SeenUsage(was, tasks[a], sysCpu, cpuNum);
    SeenUsage(was, tasks[b], sysCpu, cpuNum);
    FitsAt(deltas, cpuNum, a);
    FitsAt(deltas, cpuNum, b);
  }

  lemma SeenUsage(was: map<Pid, Thread>, task: Task, sysCpu: nat, cpuNum: nat)
    ensures var seen := Seen(was, task, sysCpu, cpuNum); seen.cpuUsage == Usage(seen.Delta() % U32, sysCpu, cpuNum)
  {
  }

  lemma FitsAt(deltas: seq<nat>, cpuNum: nat, i: nat)
    requires i < |deltas| && Fits(deltas, cpuNum)
    ensures deltas[i] % U32 == deltas[i]
  {
    assert deltas[i] * 100 < U32;
  }

  predicate DistinctTids(tasks: seq<Task>) {
    forall a, b | 0 <= a < b < |tasks| :: tasks[a].tid != tasks[b].tid
  }

  function Tids(tasks: seq<Task>): set<Pid> { set task | task in tasks :: task.tid }

  // The threads after the readings of some task lines.
  ghost predicate AllSeen(was: map<Pid, Thread>, now: map<Pid, Thread>, tasks: seq<Task>, sysCpu: nat, cpuNum: nat) {
    && now.Keys == was.Keys + Tids(tasks)
    && (forall task <- tasks :: now[task.tid] == Seen(was, task, sysCpu, cpuNum))
    && (forall t | t in was && t !in Tids(tasks) :: now[t] == was[t])
  }

  lemma SeeOne(was: map<Pid, Thread>, now: map<Pid, Thread>, tasks: seq<Task>, task: Task, sysCpu: nat, cpuNum: nat)
    requires AllSeen(was, now, tasks, sysCpu, cpuNum) && task.tid !in Tids(tasks)
    ensures Seen(now, task, sysCpu, cpuNum) == Seen(was, task, sysCpu, cpuNum)
    ensures AllSeen(was, now[task.tid := Seen(now, task, sysCpu, cpuNum)], tasks + [task], sysCpu, cpuNum)
  {
    TidsAppend(tasks, [task]);
    assert Tids([task]) == {task.tid};
  }

  lemma TidsAppend(a: seq<Task>, b: seq<Task>)
    ensures Tids(a + b) == Tids(a) + Tids(b)
  {
    assert forall u :: u in a + b <==> u in a || u in b;
  }

  lemma SeeMore(was: map<Pid, Thread>, mid: map<Pid, Thread>, now: map<Pid, Thread>,
                a: seq<Task>, b: seq<Task>, sysCpu: nat, cpuNum: nat)
    requires AllSeen(was, mid, a, sysCpu, cpuNum) && AllSeen(mid, now, b, sysCpu, cpuNum) && Tids(a) !! Tids(b)
    ensures AllSeen(was, now, a + b, sysCpu, cpuNum)
    ensures DeltasOf(mid, b, sysCpu, cpuNum) == DeltasOf(was, b, sysCpu, cpuNum)
  {
    TidsAppend(a, b);
    forall task | task in a ensures task.tid in Tids(a) && task.tid !in Tids(b) {}
    forall task | task in b ensures task.tid in Tids(b) && Seen(mid, task, sysCpu, cpuNum) == Seen(was, task, sysCpu, cpuNum) {}
    hide Seen;
    hide Thread.Delta;
    assert forall u :: u in a + b <==> u in a || u in b;
    forall i | 0 <= i < |b|
      ensures DeltasOf(mid, b, sysCpu, cpuNum)[i] == DeltasOf(was, b, sysCpu, cpuNum)[i]
    {
      assert b[i] in b;
    }
  }

  lemma NoneSeen(was: map<Pid, Thread>, sysCpu: nat, cpuNum: nat)
    ensures AllSeen(was, was, [], sysCpu, cpuNum)
  {
  }

  // The threads and the process's running sum after the readings of some task lines.
  ghost predicate TasksRead(was: map<Pid, Thread>, now: map<Pid, Thread>, tasks: seq<Task>, sum: int,
                            sysCpu: nat, cpuNum: nat) {
    AllSeen(was, now, tasks, sysCpu, cpuNum) && sum == SumInt32(DeltasOf(was, tasks, sysCpu, cpuNum))
  }

  lemma NoTasksRead(was: map<Pid, Thread>, tasks: seq<Task>, sysCpu: nat, cpuNum: nat)
    ensures TasksRead(was, was, tasks[..0], 0, sysCpu, cpuNum)
  {
    NoneSeen(was, sysCpu, cpuNum);
  }

  lemma TasksReadNext(was: map<Pid, Thread>, now: map<Pid, Thread>, tasks: seq<Task>, i: nat, sum: int,
                      sysCpu: nat, cpuNum: nat)
    requires i < |tasks| && DistinctTids(tasks) && TasksRead(was, now, tasks[..i], sum, sysCpu, cpuNum)
    ensures var thread := Seen(now, tasks[i], sysCpu, cpuNum);
            TasksRead(was, now[tasks[i].tid := thread], tasks[..i + 1], ToInt32(sum + ToInt32(thread.Delta())), sysCpu, cpuNum)
  {
    hide AllSeen, ToInt32, Seen, Tids, DeltasOf, SumInt32;
    hide Thread.Delta;
    assert tasks[i].tid !in Tids(tasks[..i]) && tasks[..i + 1] == tasks[..i] + [tasks[i]] by {
      NextIsNew(tasks, i);
    }
    hide DistinctTids;
    DeltasNext(was, tasks[..i], tasks[i], sysCpu, cpuNum);
    SeeOne(was, now, tasks[..i], tasks[i], sysCpu, cpuNum);
  }

  lemma NextIsNew(tasks: seq<Task>, i: nat)
    requires i < |tasks| && DistinctTids(tasks)
    ensures tasks[i].tid !in Tids(tasks[..i]) && tasks[..i + 1] == tasks[..i] + [tasks[i]]
  {
  }

  lemma DeltasNext(was: map<Pid, Thread>, tasks: seq<Task>, task: Task, sysCpu: nat, cpuNum: nat)
    ensures SumInt32(DeltasOf(was, tasks + [task], sysCpu, cpuNum)) ==
            ToInt32(SumInt32(DeltasOf(was, tasks, sysCpu, cpuNum)) + ToInt32(Seen(was, task, sysCpu, cpuNum).Delta()))
  {
    hide Seen, ToInt32;
    hide Thread.Delta;
    var deltas := DeltasOf(was, tasks + [task], sysCpu, cpuNum);
    assert deltas[..|tasks|] == DeltasOf(was, tasks, sysCpu, cpuNum);
  }

  // All entries marked invalid before a pass.
  function Invalidated(threads: map<Pid, Thread>): map<Pid, Thread> {
    map t | t in threads :: threads[t].(valid := false)
  }

  function Cleaned(threads: map<Pid, Thread>): map<Pid, Thread> {
    map t | t in threads :: if threads[t].valid then threads[t] else threads[t].ClearedData()
  }

  // The usage of a process from its threads as they were before a pass.
  function UsageOf(was: map<Pid, Thread>, p: Proc, totalOld: nat, totalDelta: nat, cpuNum: nat): int
    requires p.tasks != []
  {
    ProcessUsage(DeltasOf(was, p.tasks, SysCpuOf(totalOld, totalDelta), cpuNum), totalOld, totalDelta, cpuNum)
  }

  // New processes start with 0.
  function OldUsage(processes: map<Pid, int>, pid: Pid): int { if pid in processes then processes[pid] else 0 }

  // After the first k processes of a pass: theirs are the new usages, the other watched ones have their old usages.
  ghost predicate UsagesSet(was: map<Pid, Thread>, watched: set<Pid>, wasP: map<Pid, int>, nowP: map<Pid, int>, procs: seq<Proc>, k: nat,
                            totalOld: nat, totalDelta: nat, cpuNum: nat)
    requires k <= |procs|
  {
    && nowP.Keys == watched
    && (forall i | 0 <= i < k :: procs[i].tasks != [] && procs[i].pid in nowP
          && nowP[procs[i].pid] == UsageOf(was, procs[i], totalOld, totalDelta, cpuNum))
    && (forall pid | pid in watched && NotAmong(procs, k, pid) :: nowP[pid] == OldUsage(wasP, pid))
  }

  predicate NotAmong(procs: seq<Proc>, k: nat, pid: Pid)
    requires k <= |procs|
  {
    forall i | 0 <= i < k :: procs[i].pid != pid
  }

  // After a whole pass: the listed threads are updated and all others are reset.
  ghost predicate ThreadsPassed(was: map<Pid, Thread>, now: map<Pid, Thread>, tasks: seq<Task>, sysCpu: nat, cpuNum: nat) {
    && now.Keys == was.Keys + Tids(tasks)
    && (forall task <- tasks :: task.tid in now && now[task.tid] == Seen(was, task, sysCpu, cpuNum))
    && (forall t | t in was && t !in Tids(tasks) :: t in now && now[t] == Thread(false, 0, 0, -1, -1, -1))
  }

  function AllTasks(procs: seq<Proc>): seq<Task> {
    if procs == [] then [] else AllTasks(procs[..|procs| - 1]) + procs[|procs| - 1].tasks
  }

  lemma {:induction false} AllTasksOf(procs: seq<Proc>, task: Task)
    ensures task in AllTasks(procs) <==> exists i :: 0 <= i < |procs| && task in procs[i].tasks
  {
    if |procs| > 0 {
      var init, last := procs[..|procs| - 1], procs[|procs| - 1];
      AllTasksOf(init, task);
      assert forall i | 0 <= i < |init| :: init[i] == procs[i];
    }
  }

  lemma ProcAt(procs: seq<Proc>, k: nat)
    requires k < |procs| && Listing(procs)
    ensures procs[k] in procs && |procs[k].tasks| > 0 && DistinctTids(procs[k].tasks)
  {
  }

  lemma NextTasksAreNew(procs: seq<Proc>, k: nat)
    requires k < |procs| && Listing(procs)
    ensures Tids(AllTasks(procs[..k])) !! Tids(procs[k].tasks) && DistinctTids(procs[k].tasks)
    ensures AllTasks(procs[..k + 1]) == AllTasks(procs[..k]) + procs[k].tasks
  {
    assert procs[..k + 1][..k] == procs[..k];
    forall t, u | t in AllTasks(procs[..k]) && u in procs[k].tasks ensures t.tid != u.tid {
      AllTasksOf(procs[..k], t);
      var i :| 0 <= i < k && t in procs[..k][i].tasks;
      var a :| 0 <= a < |procs[i].tasks| && procs[i].tasks[a] == t;
      var b :| 0 <= b < |procs[k].tasks| && procs[k].tasks[b] == u;
    }
  }

  lemma NoUsagesSet(was: map<Pid, Thread>, wasP: map<Pid, int>, procs: seq<Proc>, totalOld: nat, totalDelta: nat, cpuNum: nat)
    ensures UsagesSet(was, wasP.Keys, wasP, wasP, procs, 0, totalOld, totalDelta, cpuNum)
  {
  }

  lemma UsagesSetNext(was: map<Pid, Thread>, watched: set<Pid>, wasP: map<Pid, int>, midP: map<Pid, int>, procs: seq<Proc>, k: nat,
                      totalOld: nat, totalDelta: nat, cpuNum: nat)
    requires k < |procs| && Listing(procs) && procs[k].pid in watched
    requires UsagesSet(was, watched, wasP, midP, procs, k, totalOld, totalDelta, cpuNum)
    ensures procs[k].tasks != []
    ensures UsagesSet(was, watched, wasP, midP[procs[k].pid := UsageOf(was, procs[k], totalOld, totalDelta, cpuNum)], procs, k + 1,
                      totalOld, totalDelta, cpuNum)
  {
    hide UsageOf, NotAmong, OldUsage;
    var p := procs[k];
    assert NotAmong(procs, k, p.pid) && forall pid :: NotAmong(procs, k + 1, pid) <==> NotAmong(procs, k, pid) && pid != p.pid by {
      PidIsNew(procs, k);
    }
  }

  lemma PidIsNew(procs: seq<Proc>, k: nat)
    requires k < |procs| && Listing(procs)
    ensures NotAmong(procs, k, procs[k].pid)
    ensures forall pid :: NotAmong(procs, k + 1, pid) <==> NotAmong(procs, k, pid) && pid != procs[k].pid
  {
  }

  // The tasks of the next process are seen from the table before the pass.
  lemma ThreadsSeenNext(was: map<Pid, Thread>, mid: map<Pid, Thread>, now: map<Pid, Thread>, procs: seq<Proc>, k: nat,
                        sysCpu: nat, cpuNum: nat)
    requires k < |procs| && Listing(procs)
    requires AllSeen(was, mid, AllTasks(procs[..k]), sysCpu, cpuNum) && AllSeen(mid, now, procs[k].tasks, sysCpu, cpuNum)
    ensures AllSeen(was, now, AllTasks(procs[..k + 1]), sysCpu, cpuNum)
    ensures DeltasOf(mid, procs[k].tasks, sysCpu, cpuNum) == DeltasOf(was, procs[k].tasks, sysCpu, cpuNum)
  {
    NextTasksAreNew(procs, k);
    hide *;
    SeeMore(was, mid, now, AllTasks(procs[..k]), procs[k].tasks, sysCpu, cpuNum);
  }

  // The same, seen from the tables before the entries were marked and before the queues were drained.
  lemma UsagesSetFrom(threads: map<Pid, Thread>, watched: set<Pid>, wasP: map<Pid, int>, nowP: map<Pid, int>,
                      procs: seq<Proc>, totalOld: nat, totalDelta: nat, cpuNum: nat)
    requires UsagesSet(Invalidated(threads), watched, wasP, nowP, procs, |procs|, totalOld, totalDelta, cpuNum)
    ensures UsagesSet(threads, watched, wasP, nowP, procs, |procs|, totalOld, totalDelta, cpuNum)
  {
    forall i | 0 <= i < |procs| && procs[i].tasks != []
      ensures UsageOf(Invalidated(threads), procs[i], totalOld, totalDelta, cpuNum) == UsageOf(threads, procs[i], totalOld, totalDelta, cpuNum)
    {
      DeltasInvalidated(threads, procs[i].tasks, SysCpuOf(totalOld, totalDelta), cpuNum);
    }
    hide UsageOf, NotAmong, OldUsage;
  }

  lemma UsagesSetSince(threads: map<Pid, Thread>, watched: set<Pid>, wasP: map<Pid, int>, midP: map<Pid, int>, nowP: map<Pid, int>,
                       procs: seq<Proc>, totalOld: nat, totalDelta: nat, cpuNum: nat)
    requires UsagesSet(threads, watched, midP, nowP, procs, |procs|, totalOld, totalDelta, cpuNum)
    requires forall pid | pid in watched :: OldUsage(midP, pid) == OldUsage(wasP, pid)
    ensures UsagesSet(threads, watched, wasP, nowP, procs, |procs|, totalOld, totalDelta, cpuNum)
  {
    hide UsageOf, NotAmong, OldUsage;
  }

  lemma DeltasInvalidated(threads: map<Pid, Thread>, tasks: seq<Task>, sysCpu: nat, cpuNum: nat)
    ensures DeltasOf(Invalidated(threads), tasks, sysCpu, cpuNum) == DeltasOf(threads, tasks, sysCpu, cpuNum)
  {
    forall task ensures Seen(Invalidated(threads), task, sysCpu, cpuNum) == Seen(threads, task, sysCpu, cpuNum) {
      SeenInvalidated(threads, task, sysCpu, cpuNum);
    }
    hide Seen;
    hide Thread.Delta;
  }

  lemma SeenInvalidated(threads: map<Pid, Thread>, task: Task, sysCpu: nat, cpuNum: nat)
    ensures Seen(Invalidated(threads), task, sysCpu, cpuNum) == Seen(threads, task, sysCpu, cpuNum)
  {
  }

  // The threads after a whole pass and the reset, seen from the table before it.
  lemma PassDone(threads: map<Pid, Thread>, now: map<Pid, Thread>, tasks: seq<Task>, sysCpu: nat, cpuNum: nat)
    requires AllSeen(Invalidated(threads), now, tasks, sysCpu, cpuNum)
    ensures ThreadsPassed(threads, Cleaned(now), tasks, sysCpu, cpuNum)
  {
    forall task ensures Seen(Invalidated(threads), task, sysCpu, cpuNum) == Seen(threads, task, sysCpu, cpuNum) {
      SeenInvalidated(threads, task, sysCpu, cpuNum);
    }
    forall task ensures Seen(threads, task, sysCpu, cpuNum).valid {}
    hide Seen;
    forall task | task in tasks ensures task.tid in Tids(tasks) {}
    hide Tids;
  }

  // What the kernel reports during one refresh.
  datatype Reading = Reading(user: nat, nice: nat, sys: nat, idle: nat, procs: seq<Proc>) {
    // Only watched processes are listed.
    predicate Reports(watched: set<Pid>) {
      Listing(procs) && forall i | 0 <= i < |procs| :: procs[i].pid in watched
    }

    // The task is listed for the thread.
    predicate Shows(tid: Pid, task: Task) { task in AllTasks(procs) && task.tid == tid }
  }

  // ---------- a thread over several refreshes ----------

  function EntryOf(threads: map<Pid, Thread>, tid: Pid): Thread { if tid in threads then threads[tid] else NEW_THREAD }

  lemma NoTasks()
    ensures AllTasks([]) == []
  {
  }

  lemma SumAppend(s: seq<nat>, x: nat)
    ensures Sum(s + [x]) == Sum(s) + x
  {
    assert (s + [x])[..|s|] == s;
  }

  /** A thread listed in a pass, whatever else is: its entry shows the task, and its delta is the increase of its user
      and system time since its entry before the pass; without one, the delta and the usage are 0. */
  lemma ListedThread(was: map<Pid, Thread>, now: map<Pid, Thread>, tasks: seq<Task>, task: Task, sysCpu: nat, cpuNum: nat)
    requires task in tasks && ThreadsPassed(was, now, tasks, sysCpu, cpuNum)
    ensures task.tid in now
    ensures var t, before, time := now[task.tid], EntryOf(was, task.tid).proctimeNew, (task.utime + task.stime) % U64;
            && t.proctimeNew == time && t.processor == task.processor && t.tgid == task.tgid
            && (before == 0 ==> t.Delta() == 0 && t.cpuUsage == 0)
            && (0 < before <= time ==> t.Delta() == time - before)
  {
    UpdatedDelta(EntryOf(was, task.tid), task, sysCpu, cpuNum);
    NoTicksNoUsage(sysCpu, cpuNum);
    hide Thread.Update, Usage, Tids;
  }

  lemma NoTicksNoUsage(sysCpu: nat, cpuNum: nat)
    ensures Usage(0 % U32, sysCpu, cpuNum) == 0
  {
    if sysCpu != 0 {
      ScaledFits(0, cpuNum);
    }
  }

  /** A thread that one pass does not list starts afresh when the next one lists it. */
  lemma AbsentStartsAfresh(was: map<Pid, Thread>, mid: map<Pid, Thread>, now: map<Pid, Thread>, tasks: seq<Task>, tasks': seq<Task>,
                           task: Task, sysCpu: nat, sysCpu': nat, cpuNum: nat)
    requires ThreadsPassed(was, mid, tasks, sysCpu, cpuNum) && ThreadsPassed(mid, now, tasks', sysCpu', cpuNum)
    requires task in tasks' && task.tid !in Tids(tasks)
    ensures task.tid in now && now[task.tid].Delta() == 0 && now[task.tid].cpuUsage == 0
  {
    ListedThread(mid, now, tasks', task, sysCpu', cpuNum);
    hide Seen, Tids;
    hide Thread.Delta;
  }

  // A pass that shows the thread leaves it as a sighting of its task does.
  lemma PassSights(was: map<Pid, Thread>, now: map<Pid, Thread>, reading: Reading, tid: Pid, task: Task, sysCpu: nat, cpuNum: nat)
    requires reading.Shows(tid, task) && ThreadsPassed(was, now, AllTasks(reading.procs), sysCpu, cpuNum)
    ensures tid in now
    ensures var t := EntryOf(was, tid).Update(task, 0, 0); now[tid].proctimeNew == t.proctimeNew && now[tid].Delta() == t.Delta()
  {
    hide AllTasks, Tids, Usage;
    assert now[task.tid] == Seen(was, task, sysCpu, cpuNum);
  }

  lemma {:induction false} SumOfDeltasAlike(t: Thread, u: Thread, tasks: seq<Task>)
    requires t.proctimeNew == u.proctimeNew
    ensures SumOfDeltas(t, tasks) == SumOfDeltas(u, tasks)
    decreases |tasks|
  {
    hide Usage;
    if tasks != [] {
      SumOfDeltasAlike(t.Update(tasks[0], 0, 0), u.Update(tasks[0], 0, 0), tasks[1..]);
    }
  }

  lemma DeltasFrom(t: Thread, now: Thread, tasks: seq<Task>, i: nat)
    requires i < |tasks|
    requires now.proctimeNew == t.Update(tasks[i], 0, 0).proctimeNew && now.Delta() == t.Update(tasks[i], 0, 0).Delta()
    ensures SumOfDeltas(t, tasks[i..]) == now.Delta() + SumOfDeltas(now, tasks[i + 1..])
  {
    assert tasks[i..][1..] == tasks[i + 1..];
    SumOfDeltasAlike(t.Update(tasks[i], 0, 0), now, tasks[i + 1..]);
    hide Thread.Update, Thread.Delta;
  }

  // The deltas so far and those still to come from an entry add up to a total.
  ghost predicate SumsTo(deltas: seq<nat>, t: Thread, tasks: seq<Task>, i: nat, total: nat)
    requires i <= |tasks|
  {
    Sum(deltas) + SumOfDeltas(t, tasks[i..]) == total
  }

  lemma SumsAtFirst(t: Thread, tasks: seq<Task>)
    ensures SumsTo([], t, tasks, 0, SumOfDeltas(t, tasks))
  {
    assert tasks[0..] == tasks;
  }

  lemma SumsAtLast(deltas: seq<nat>, t: Thread, tasks: seq<Task>, total: nat)
    requires SumsTo(deltas, t, tasks, |tasks|, total)
    ensures Sum(deltas) == total
  {
    assert tasks[|tasks|..] == [];
  }

  lemma SumsNext(deltas: seq<nat>, was: map<Pid, Thread>, now: map<Pid, Thread>, reading: Reading, tid: Pid, tasks: seq<Task>,
                 i: nat, total: nat, sysCpu: nat, cpuNum: nat)
    requires i < |tasks| && reading.Shows(tid, tasks[i])
    requires ThreadsPassed(was, now, AllTasks(reading.procs), sysCpu, cpuNum)
    requires SumsTo(deltas, EntryOf(was, tid), tasks, i, total)
    ensures tid in now && SumsTo(deltas + [now[tid].Delta()], EntryOf(now, tid), tasks, i + 1, total)
  {
    hide SumOfDeltas, ThreadsPassed, AllTasks, Sum;
    hide Reading.Shows, Thread.Delta, Thread.Update;
    PassSights(was, now, reading, tid, tasks[i], sysCpu, cpuNum);
    DeltasFrom(EntryOf(was, tid), now[tid], tasks, i);
    SumAppend(deltas, now[tid].Delta());
  }

  /** On the first refresh, and whenever the clocks did not advance, every listed process and thread has usage 0. */
  lemma NoTimeNoUsage(was: map<Pid, Thread>, now: map<Pid, Thread>, watched: set<Pid>, wasP: map<Pid, int>, nowP: map<Pid, int>,
                      procs: seq<Proc>, totalOld: nat, totalDelta: nat, cpuNum: nat)
    requires totalOld == 0 || totalDelta == 0
    requires UsagesSet(was, watched, wasP, nowP, procs, |procs|, totalOld, totalDelta, cpuNum)
    requires ThreadsPassed(was, now, AllTasks(procs), SysCpuOf(totalOld, totalDelta), cpuNum)
    ensures forall i | 0 <= i < |procs| :: procs[i].pid in nowP && nowP[procs[i].pid] == 0
    ensures forall task <- AllTasks(procs) :: task.tid in now && now[task.tid].cpuUsage == 0
  {
    forall task ensures Seen(was, task, 0, cpuNum).cpuUsage == 0 {
      SeenUsage(was, task, 0, cpuNum);
    }
    hide Seen, Tids, AllTasks, NotAmong, OldUsage;
  }

  class CpuUsage {
    const cpuNum: nat
    var threads: map<Pid, Thread>
    var processes: map<Pid, int>
    var toStart: seq<Pid>
    var toStop: seq<Pid>
    var totalNew: nat
    var totalOld: nat
    var totalDelta: nat
    var idleNew: nat
    var idleOld: nat
    var idleDelta: nat
    var hasDataCnt: nat
    // The untruncated counters of the last refresh.
    ghost var busyClock: nat
    ghost var idleClock: nat

    ghost predicate Valid()
      reads this
    {
      totalNew == Truncated(busyClock + idleClock) && idleNew == Truncated(idleClock)
    }

    // All counters as they are before the first refresh.
    ghost predicate Zeroed()
      reads this
    {
      && totalNew == totalOld == totalDelta == idleNew == idleOld == idleDelta == 0
      && hasDataCnt == 0 && busyClock == idleClock == 0
    }

    constructor (cpuNum: nat)
      ensures Valid() && Zeroed() && threads == map[] && processes == map[] && toStart == [] && toStop == []
      ensures this.cpuNum == cpuNum
    {
      TruncatedOnce(0);
      hide Truncated;
      this.cpuNum := cpuNum;
      threads, processes, toStart, toStop := map[], map[], [], [];
      totalNew, totalOld, totalDelta, idleNew, idleOld, idleDelta, hasDataCnt := 0, 0, 0, 0, 0, 0, 0;
      busyClock, idleClock := 0, 0;
    }

    method StartWatching(pid: Pid)
      modifies this`toStart
      ensures toStart == old(toStart) + [pid]
    {
      toStart := toStart + [pid];
    }

    method StopWatching(pid: Pid)
      modifies this`toStop
      ensures toStop == old(toStop) + [pid]
    {
      toStop := toStop + [pid];
    }

    method ResetCounters()
      modifies this`totalNew, this`totalOld, this`totalDelta, this`idleNew, this`idleOld, this`idleDelta, this`hasDataCnt,
               this`busyClock, this`idleClock
      ensures Valid() && Zeroed()
    {
      TruncatedOnce(0);
      hide Truncated;
      totalNew, totalOld, totalDelta := 0, 0, 0;
      idleNew, idleOld, idleDelta := 0, 0, 0;
      hasDataCnt := 0;
      busyClock, idleClock := 0, 0;
    }

    method Clear()
      modifies this
      ensures Valid() && Zeroed() && threads == map[] && processes == map[] && toStart == [] && toStop == []
    {
      threads, processes, toStart, toStop := map[], map[], [], [];
      ResetCounters();
    }

    // The system part of a refresh on these readings, seen from the clocks and the total before it.
    ghost predicate Ticked(reading: Reading, busy: nat, idle: nat, total: nat)
      reads this`busyClock, this`idleClock, this`totalOld, this`totalDelta, this`idleDelta
    {
      && busyClock == reading.user + reading.nice + reading.sys && idleClock == reading.idle
      && totalOld == total
      && TrueDeltas(busy, idle, busyClock, idleClock, totalDelta, idleDelta)
      && BusyPercent(SysCpuUsage(), total, busy, idle, busyClock, idleClock)
    }

    /** For counters that never decrease and advance by less than 2^32 per round the truncated deltas
        are the true ones, and the system usage is the busy percentage, between 0 and 100. */
    method RefreshSystem(reading: Reading)
      requires Valid()
      modifies this`totalNew, this`totalOld, this`totalDelta, this`idleNew, this`idleOld, this`idleDelta,
               this`busyClock, this`idleClock
      ensures Valid() && Ticked(reading, old(busyClock), old(idleClock), old(totalNew))
    {
      ghost var busy := reading.user + reading.nice + reading.sys;
      TruncatedOnce(busy + reading.idle);
      if busyClock <= busy && idleClock <= reading.idle && busy + reading.idle < busyClock + idleClock + U32 {
        WrappedDelta(busyClock + idleClock, busy + reading.idle);
        WrappedDelta(idleClock, reading.idle);
      }
      hide Truncated, Difference32, SystemUsage;
      totalOld := totalNew;
      totalNew := Truncated((reading.user + reading.nice + reading.sys + reading.idle) % U64);
      totalDelta := Difference32(totalNew, totalOld);
      idleOld := idleNew;
      idleNew := Truncated(reading.idle);
      idleDelta := Difference32(idleNew, idleOld);
      busyClock, idleClock := busy, reading.idle;
      SystemUsageIsBusyPercent(totalOld, old(busyClock), old(idleClock), busyClock, idleClock, totalDelta, idleDelta);
    }

    function SysCpuUsage(): int
      reads this`totalOld, this`totalDelta, this`idleDelta
    {
      SystemUsage(totalOld, totalDelta, idleDelta)
    }

    function SysCpu(): nat
      reads this`totalOld, this`totalDelta
    {
      SysCpuOf(totalOld, totalDelta)
    }

    // The processes that are watched once both queues are drained.
    function ToWatch(): set<Pid>
      reads this`processes, this`toStart, this`toStop
    {
      processes.Keys + SetOf(toStart) - SetOf(toStop)
    }

    /** Starts are drained before stops. */
    method RefreshWatching()
      modifies this`processes, this`toStart, this`toStop
      ensures toStart == [] && toStop == []
      ensures processes.Keys == old(ToWatch())
      ensures forall p <- processes :: processes[p] == OldUsage(old(processes), p)
    {
      var i := 0;
      while i < |toStart|
        invariant i <= |toStart| && toStart == old(toStart) && toStop == old(toStop)
        invariant processes.Keys == old(processes.Keys) + SetOf(toStart[..i])
        invariant forall p <- processes :: processes[p] == if p in old(processes) then old(processes)[p] else 0
      {
        assert toStart[..i + 1] == toStart[..i] + [toStart[i]];
        SetOfAppend(toStart[..i], toStart[i]);
        if toStart[i] !in processes {
          processes := processes[toStart[i] := 0];
        }
        i := i + 1;
      }
      assert toStart[..i] == toStart;
      toStart := [];
      i := 0;
      ghost var started := processes.Keys;
      while i < |toStop|
        invariant i <= |toStop| && toStart == [] && toStop == old(toStop)
        invariant processes.Keys == started - SetOf(toStop[..i])
        invariant forall p <- processes :: processes[p] == if p in old(processes) then old(processes)[p] else 0
      {
        assert toStop[..i + 1] == toStop[..i] + [toStop[i]];
        SetOfAppend(toStop[..i], toStop[i]);
        processes := processes - {toStop[i]};
        i := i + 1;
      }
      assert toStop[..i] == toStop;
      toStop := [];
    }

    // The tasks of a process leave the sum of their deltas in the process's entry.
    method ReadTasks(p: Proc) returns (cnt: nat)
      requires DistinctTids(p.tasks)
      modifies this`threads, this`processes
      ensures cnt == |p.tasks| && p.pid in processes
      ensures TasksRead(old(threads), threads, p.tasks, processes[p.pid], SysCpu(), cpuNum)
      ensures processes == old(processes)[p.pid := processes[p.pid]]
    {
      hide TasksRead, ToInt32, Seen;
      hide Thread.Delta;
      var sysCpu := SysCpu();
      processes := processes[p.pid := 0];
      cnt := 0;
      NoTasksRead(threads, p.tasks, sysCpu, cpuNum);
      while cnt < |p.tasks|
        invariant cnt <= |p.tasks| && p.pid in processes
        invariant TasksRead(old(threads), threads, p.tasks[..cnt], processes[p.pid], sysCpu, cpuNum)
        invariant processes == old(processes)[p.pid := processes[p.pid]]
      {
        var task := p.tasks[cnt];
        TasksReadNext(old(threads), threads, p.tasks, cnt, processes[p.pid], sysCpu, cpuNum);
        var thread := Seen(threads, task, sysCpu, cpuNum);
        threads := threads[task.tid := thread];
        processes := processes[p.pid := ToInt32(processes[p.pid] + ToInt32(thread.Delta()))];
        cnt := cnt + 1;
      }
      assert p.tasks[..cnt] == p.tasks;
    }

    method ReadProcess(p: Proc)
      requires |p.tasks| > 0 && DistinctTids(p.tasks)
      modifies this`threads, this`processes
      ensures AllSeen(old(threads), threads, p.tasks, SysCpu(), cpuNum)
      ensures processes == old(processes)[p.pid := UsageOf(old(threads), p, totalOld, totalDelta, cpuNum)]
    {
      hide AllSeen, SumInt32, DistinctTids, Share, Scaled, Average;
      var cnt := ReadTasks(p);
      processes := processes[p.pid :=
        if totalOld == 0 || totalDelta == 0 then 0
        else Share(Scaled(Average(processes[p.pid], cnt), cpuNum), totalDelta)];
    }

    /** One pass over the listed processes: every process's usage is that of its threads' deltas, every
        listed thread is updated, and every other thread is reset, so that its deltas start afresh. */
    method RefreshThread(procs: seq<Proc>)
      requires Listing(procs) && forall i | 0 <= i < |procs| :: procs[i].pid in processes
      modifies this`threads, this`processes
      ensures processes.Keys == old(processes.Keys)
      ensures UsagesSet(old(threads), old(processes.Keys), old(processes), processes, procs, |procs|, totalOld, totalDelta, cpuNum)
      ensures ThreadsPassed(old(threads), threads, AllTasks(procs), SysCpu(), cpuNum)
    {
      hide AllSeen, Seen, Tids, DeltasOf, Listing, ThreadsPassed, ProcessUsage, SysCpuOf, AllTasks, DistinctTids;
      threads := Invalidated(threads);
      ghost var was := threads;
      NoneSeen(was, SysCpu(), cpuNum);
      NoUsagesSet(was, processes, procs, totalOld, totalDelta, cpuNum);
      assert procs[..0] == [] && AllTasks([]) == [] by { NoTasks(); }
      hide UsagesSet;
      for k := 0 to |procs|
        invariant processes.Keys == old(processes.Keys)
        invariant AllSeen(was, threads, AllTasks(procs[..k]), SysCpu(), cpuNum)
        invariant UsagesSet(was, old(processes.Keys), old(processes), processes, procs, k, totalOld, totalDelta, cpuNum)
      {
        ghost var mid, midP := threads, processes;
        ProcAt(procs, k);
        ReadProcess(procs[k]);
        ThreadsSeenNext(was, mid, threads, procs, k, SysCpu(), cpuNum);
        UsagesSetNext(was, old(processes.Keys), old(processes), midP, procs, k, totalOld, totalDelta, cpuNum);
      }
      assert procs[..|procs|] == procs;
      PassDone(old(threads), threads, AllTasks(procs), SysCpu(), cpuNum);
      UsagesSetFrom(old(threads), old(processes.Keys), old(processes), processes, procs, totalOld, totalDelta, cpuNum);
      threads := Cleaned(threads);
    }

    /** One refresh: the clocks advance, both queues are drained, every listed process has the usage of its
        threads and every other watched one keeps its own, every listed thread is updated and all others are reset. */
    method Refresh(reading: Reading)
      requires Valid() && reading.Reports(ToWatch())
      modifies this
      ensures Valid() && Ticked(reading, old(busyClock), old(idleClock), old(totalNew))
      ensures toStart == [] && toStop == []
      ensures processes.Keys == ToWatch() == old(ToWatch())
      ensures UsagesSet(old(threads), old(ToWatch()), old(processes), processes, reading.procs, |reading.procs|, totalOld, totalDelta, cpuNum)
      ensures ThreadsPassed(old(threads), threads, AllTasks(reading.procs), SysCpu(), cpuNum)
      ensures hasDataCnt == if old(hasDataCnt) < 2 then old(hasDataCnt) + 1 else old(hasDataCnt)
    {
      hide Listing, UsagesSet, ThreadsPassed, TrueDeltas, Truncated, SystemUsage;
      RefreshSystem(reading);
      RefreshWatching();
      ghost var drained := processes;
      RefreshThread(reading.procs);
      UsagesSetSince(old(threads), old(ToWatch()), old(processes), drained, processes, reading.procs, totalOld, totalDelta, cpuNum);
      if hasDataCnt < 2 {
        hasDataCnt := hasDataCnt + 1;
      }
      assert SetOf(toStart) == {} && SetOf(toStop) == {};
    }

    /** Any number of refreshes, in each of which a thread is listed and its user and system time never decrease: the
        deltas that the table holds for the thread after each refresh add up to the increase of this time since its last
        reading before the run or, without one, since its first nonzero reading. */
    method Run(rounds: seq<Reading>, ghost tid: Pid, ghost tasks: seq<Task>) returns (ghost deltas: seq<nat>)
      requires Valid() && forall i | 0 <= i < |rounds| :: rounds[i].Reports(ToWatch())
      requires |tasks| == |rounds| > 0 && forall i | 0 <= i < |rounds| :: rounds[i].Shows(tid, tasks[i])
      requires Monotone(TimesOf(tasks)) && EntryOf(threads, tid).proctimeNew <= TimesOf(tasks)[0]
      modifies this
      ensures Valid() && |deltas| == |rounds| && tid in threads && deltas[|rounds| - 1] == threads[tid].Delta()
      ensures var before, times := EntryOf(old(threads), tid).proctimeNew, TimesOf(tasks);
              Sum(deltas) == times[|times| - 1] - (if before != 0 then before else FirstNonzero(times))
    {
      ghost var start := EntryOf(threads, tid);
      TelescopeFrom(start, tasks);
      SumsAtFirst(start, tasks);
      hide *;
      deltas := [];
      for i := 0 to |rounds|
        invariant Valid() && ToWatch() == old(ToWatch()) && |deltas| == i
        invariant SumsTo(deltas, EntryOf(threads, tid), tasks, i, SumOfDeltas(start, tasks))
        invariant i > 0 ==> tid in threads && deltas[i - 1] == threads[tid].Delta()
      {
        ghost var was, before := threads, deltas;
        Refresh(rounds[i]);
        SumsNext(deltas, was, threads, rounds[i], tid, tasks, i, SumOfDeltas(start, tasks), SysCpu(), cpuNum);
        deltas := deltas + [threads[tid].Delta()];
      }
      SumsAtLast(deltas, EntryOf(threads, tid), tasks, SumOfDeltas(start, tasks));
    }
  }
}

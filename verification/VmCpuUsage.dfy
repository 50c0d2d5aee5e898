/** The tracker of VM processes in front of the CPU sampler (src/sysinfo/vm/dynamic/vm_cpu_usage.cpp). */
module VmCpuUsageTracker {
  import opened Sets
  import opened CpuUsageSampler

  // ---------- the protocol on values ----------

  // The tracked pids, the watched pids and the two queues; every step is one lock region.
  datatype Track = Track(last: set<Pid>, watched: set<Pid>, starts: set<Pid>, stops: set<Pid>) {
    function Push(pids: set<Pid>): Track {
      Track(pids, watched, starts + (pids - last), stops + (last - pids))
    }

    // Starts are drained before stops.
    function Drain(): Track { Track(last, watched + starts - stops, {}, {}) }

    function Clear(): Track { Track({}, {}, {}, {}) }

    function Apply(step: Step): Track {
      match step
      case PushStep(pids) => Push(pids)
      case DrainStep => Drain()
      case ClearStep => Clear()
    }

    // The tracked pids are those that will be watched after the next drain.
    predicate Balanced() { last == watched + starts - stops }

    // No pid queued for stop is queued for start.
    predicate Safe(step: Step) { step.PushStep? ==> (step.pids - last) * stops == {} }
  }

  datatype Step = PushStep(pids: set<Pid>) | DrainStep | ClearStep

  function Run(t: Track, steps: seq<Step>): Track
    decreases |steps|
  {
    if steps == [] then t else Run(t.Apply(steps[0]), steps[1..])
  }

  predicate AlwaysSafe(t: Track, steps: seq<Step>)
    decreases |steps|
  {
    steps == [] || (t.Safe(steps[0]) && AlwaysSafe(t.Apply(steps[0]), steps[1..]))
  }

  predicate AlwaysBalanced(t: Track, steps: seq<Step>)
    decreases |steps|
  {
    t.Balanced() && (steps == [] || AlwaysBalanced(t.Apply(steps[0]), steps[1..]))
  }

  /** A step keeps the balance exactly if it does not restart a pid that is queued for stop. */
  lemma StepKeepsBalance(t: Track, step: Step)
    requires t.Balanced()
    ensures t.Apply(step).Balanced() <==> t.Safe(step)
  {
    if step.PushStep? {
      var clash := (step.pids - t.last) * t.stops;
      var t' := t.Apply(step);
      if t.Safe(step) {
        forall p ensures p in t'.last <==> p in t'.watched + t'.starts - t'.stops {
          assert p in t.last <==> p in t.watched + t.starts - t.stops;
          assert p !in clash;
        }
      } else {
        var p := AnyOf(clash);
        assert p in t'.last && p !in t'.watched + t'.starts - t'.stops;
      }
    }
  }

  /** Any interleaving of pushes, drains and clears keeps the balance at every point exactly if
      none of its pushes restarts a pid that is queued for stop. */
  lemma {:induction false} RunKeepsBalance(t: Track, steps: seq<Step>)
    requires t.Balanced()
    ensures AlwaysBalanced(t, steps) <==> AlwaysSafe(t, steps)
    decreases |steps|
  {
    if steps != [] {
      StepKeepsBalance(t, steps[0]);
      if t.Safe(steps[0]) {
        RunKeepsBalance(t.Apply(steps[0]), steps[1..]);
      }
    }
  }

  /** A clear forgets everything, and what follows it is as from the start: after a push of any pids and a drain exactly
      these pids are watched, even those that were queued for stop. */
  lemma ClearForgets(t: Track, pids: set<Pid>)
    ensures t.Apply(ClearStep) == Track({}, {}, {}, {})
    ensures t.Apply(ClearStep).Push(pids).Drain() == Track(pids, pids, {}, {})
  {
  }

  // A caller that always drains after its push.
  function Refreshes(rounds: seq<set<Pid>>): seq<Step> {
    if rounds == [] then [] else [PushStep(rounds[0]), DrainStep] + Refreshes(rounds[1..])
  }

  /** With a single caller every run is safe, and after every refresh exactly the tracked pids are watched. */
  lemma {:induction false} SingleCaller(t: Track, rounds: seq<set<Pid>>)
    requires t.Balanced() && t.starts == {} && t.stops == {}
    ensures AlwaysBalanced(t, Refreshes(rounds))
    ensures var t' := Run(t, Refreshes(rounds));
            && t'.watched == t'.last && t'.starts == {} && t'.stops == {}
            && t'.last == if rounds == [] then t.last else rounds[|rounds| - 1]
    decreases |rounds|
  {
    if rounds != [] {
      var pushed := t.Push(rounds[0]);
      StepKeepsBalance(t, PushStep(rounds[0]));
      SingleCaller(pushed.Drain(), rounds[1..]);
      var steps := Refreshes(rounds);
      assert steps[1..] == [DrainStep] + Refreshes(rounds[1..]);
      assert steps[1..][1..] == Refreshes(rounds[1..]);
      assert t.Apply(steps[0]) == pushed && pushed.Apply(steps[1..][0]) == pushed.Drain();
    }
  }

  /** A restart before the drain loses the pid: it stays tracked and unwatched however often the same
      set is refreshed. */
  lemma {:induction false} RestartIsLost(t: Track, p: Pid, pids: set<Pid>, n: nat)
    requires p in t.last && p !in t.watched && p !in t.starts && p in pids
    ensures var t' := Run(t, Refreshes(seq(n, _ => pids))); p in t'.last && p !in t'.watched
    decreases n
  {
    if n > 0 {
      var rounds := seq(n, _ => pids);
      assert rounds[1..] == seq(n - 1, _ => pids);
      RestartIsLost(t.Push(pids).Drain(), p, pids, n - 1);
      var steps := Refreshes(rounds);
      assert steps[1..] == [DrainStep] + Refreshes(rounds[1..]);
      assert steps[1..][1..] == Refreshes(rounds[1..]);
      assert t.Apply(steps[0]) == t.Push(pids) && t.Push(pids).Apply(steps[1..][0]) == t.Push(pids).Drain();
    }
  }

  lemma RestartLosesPid()
    ensures var t := Run(Track({7}, {7}, {}, {}), [PushStep({}), PushStep({7}), DrainStep]);
            t.last == {7} && t.watched == {}
  {
    var t := Track({7}, {7}, {}, {});
    var steps := [PushStep({}), PushStep({7}), DrainStep];
    assert steps[1..] == [PushStep({7}), DrainStep] && steps[1..][1..] == [DrainStep] && steps[1..][1..][1..] == [];
    assert t.Push({}).Push({7}).Drain() == Track({7}, {}, {}, {});
    assert Run(t.Push({}).Push({7}), [DrainStep]) == t.Push({}).Push({7}).Drain();
    assert Run(t.Push({}), [PushStep({7}), DrainStep]) == t.Push({}).Push({7}).Drain();
  }

  // ---------- the class ----------

  class VmCpuUsage {
    const cpuUsage: CpuUsage
    var lastPids: set<Pid>

    ghost function Abs(): Track
      reads this, cpuUsage
    {
      Track(lastPids, cpuUsage.processes.Keys, SetOf(cpuUsage.toStart), SetOf(cpuUsage.toStop))
    }

    constructor (cpuUsage: CpuUsage)
      requires cpuUsage.processes == map[] && cpuUsage.toStart == [] && cpuUsage.toStop == []
      ensures this.cpuUsage == cpuUsage && Abs() == Track({}, {}, {}, {})
    {
      this.cpuUsage := cpuUsage;
      lastPids := {};
    }

    // Starts and stops go behind what is queued already.
    method Queue(starts: seq<Pid>, stops: seq<Pid>)
      modifies cpuUsage`toStart, cpuUsage`toStop
      ensures cpuUsage.toStart == old(cpuUsage.toStart) + starts && cpuUsage.toStop == old(cpuUsage.toStop) + stops
    {
      for i := 0 to |starts|
        invariant cpuUsage.toStart == old(cpuUsage.toStart) + starts[..i] && cpuUsage.toStop == old(cpuUsage.toStop)
      {
        cpuUsage.StartWatching(starts[i]);
        assert starts[..i + 1] == starts[..i] + [starts[i]];
      }
      assert starts[..|starts|] == starts;
      for i := 0 to |stops|
        invariant cpuUsage.toStart == old(cpuUsage.toStart) + starts && cpuUsage.toStop == old(cpuUsage.toStop) + stops[..i]
      {
        cpuUsage.StopWatching(stops[i]);
        assert stops[..i + 1] == stops[..i] + [stops[i]];
      }
      assert stops[..|stops|] == stops;
    }

    // The first lock region of a refresh.
    method Push(pids: set<Pid>)
      modifies this`lastPids, cpuUsage`toStart, cpuUsage`toStop
      ensures Abs() == old(Abs()).Push(pids)
    {
      var starts := List(pids - lastPids);
      var stops := List(lastPids - pids);
      SetOfAll(cpuUsage.toStart, starts);
      SetOfAll(cpuUsage.toStop, stops);
      lastPids := pids;
      Queue(starts, stops);
    }

    /** A whole refresh by the only caller: afterwards exactly the VM processes are watched. */
    method Refresh(pids: set<Pid>, reading: Reading)
      requires cpuUsage.Valid() && Abs().Balanced() && Abs().starts == {} && Abs().stops == {}
      requires reading.Reports(pids)
      modifies this, cpuUsage
      ensures cpuUsage.Valid() && Abs() == old(Abs()).Push(pids).Drain()
      ensures cpuUsage.processes.Keys == lastPids == pids
    {
      hide Listing;
      hide Reading.Reports;
      Push(pids);
      assert cpuUsage.ToWatch() == pids;
      cpuUsage.Refresh(reading);
    }

    method Clear()
      modifies this, cpuUsage
      ensures cpuUsage.Valid() && Abs() == old(Abs()).Clear() == Track({}, {}, {}, {})
    {
      cpuUsage.Clear();
      lastPids := {};
    }
  }
}

/** Greedy assignment of benchmark threads to CPUs (src/utils/microbench.c). */
module CpuBinding {

  const MAX_CPUS: nat := 256
  const UNBOUND := -1

  ghost function Sum(s: seq<nat>): nat { if s == [] then 0 else s[0] + Sum(s[1..]) }

  lemma {:induction false} SumDecrement(s: seq<nat>, j: nat)
    requires j < |s| && s[j] > 0
    ensures Sum(s[j := s[j] - 1]) == Sum(s) - 1
  {
    var t := s[j := s[j] - 1];
    if j == 0 {
      assert t[1..] == s[1..];
    } else {
      assert t[1..] == s[1..][j - 1 := s[1..][j - 1] - 1];
      SumDecrement(s[1..], j - 1);
    }
  }

  lemma {:induction false} SumZero(s: seq<nat>)
    requires forall j | 0 <= j < |s| :: s[j] == 0
    ensures Sum(s) == 0
  {
    if s != [] { SumZero(s[1..]); }
  }

  // How many of the threads are bound to a CPU.
  ghost function Assigned(bindings: seq<int>, cpu: int): nat {
    if bindings == [] then 0
    else Assigned(bindings[..|bindings| - 1], cpu) + (if bindings[|bindings| - 1] == cpu then 1 else 0)
  }

  // Each CPU's request is split between the threads bound so far and what remains.
  ghost predicate Conserved(requested: seq<nat>, remaining: seq<nat>, bindings: seq<int>) {
    |remaining| == |requested| && forall c | 0 <= c < |requested| :: Assigned(bindings, c) + remaining[c] == requested[c]
  }

  // The first bound threads have CPUs in non-decreasing order, the others have none.
  ghost predicate Prefix(bindings: seq<int>, bound: nat) {
    && bound <= |bindings|
    && (forall i | 0 <= i < bound :: 0 <= bindings[i] < MAX_CPUS)
    && (forall i, j | 0 <= i < j < bound :: bindings[i] <= bindings[j])
    && (forall i | bound <= i < |bindings| :: bindings[i] == UNBOUND)
  }

  // No CPU before the last one used has anything left.
  ghost predicate Exhausted(remaining: seq<nat>, bindings: seq<int>, bound: nat)
    requires bound <= |bindings|
  {
    bound > 0 ==> forall c | 0 <= c < |remaining| && c < bindings[bound - 1] :: remaining[c] == 0
  }

  method FindCpu(cpuBindings: array<nat>) returns (j: nat)
    requires cpuBindings.Length == MAX_CPUS
    ensures j <= MAX_CPUS && (j < MAX_CPUS ==> cpuBindings[j] > 0)
    ensures forall c | 0 <= c < j :: cpuBindings[c] == 0
  {
    j := 0;
    while j < MAX_CPUS
      invariant j <= MAX_CPUS && forall c | 0 <= c < j :: cpuBindings[c] == 0
    {
      if cpuBindings[j] > 0 {
        break;
      }
      j := j + 1;
    }
  }

  /** As many threads are bound as there are threads and requests, the first ones, in order of their CPUs;
      every CPU's assigned and remaining requests add up to its requests. */
  method BindThreads(cpuBindings: array<nat>, bindingCpuId: array<int>) returns (ghost bound: nat)
    requires cpuBindings.Length == 256
    modifies cpuBindings, bindingCpuId
    ensures bound == if bindingCpuId.Length < Sum(old(cpuBindings[..])) then bindingCpuId.Length else Sum(old(cpuBindings[..]))
    ensures Prefix(bindingCpuId[..], bound)
    ensures Conserved(old(cpuBindings[..]), cpuBindings[..], bindingCpuId[..])
  {
    var findCpuBindings := true;
    bound := 0;
    var i := 0;
    NoneBound(cpuBindings[..]);
    assert bindingCpuId[..0] == [];
    hide Conserved, Prefix, Exhausted, Sum;
    while i < bindingCpuId.Length
      invariant i <= bindingCpuId.Length
      invariant Conserved(old(cpuBindings[..]), cpuBindings[..], bindingCpuId[..i])
      invariant Prefix(bindingCpuId[..i], bound) && Exhausted(cpuBindings[..], bindingCpuId[..i], bound)
      invariant bound + Sum(cpuBindings[..]) == Sum(old(cpuBindings[..]))
      invariant if findCpuBindings then bound == i else Sum(cpuBindings[..]) == 0
    {
      ghost var before, remaining := bindingCpuId[..i], cpuBindings[..];
      bindingCpuId[i] := UNBOUND;
      assert bindingCpuId[..i] == before;
      if findCpuBindings {
        var j := FindCpu(cpuBindings);
        if j < MAX_CPUS {
          BindNext(old(cpuBindings[..]), remaining, before, j);
          bindingCpuId[i] := j;
          cpuBindings[j] := cpuBindings[j] - 1;
          assert cpuBindings[..] == remaining[j := remaining[j] - 1];
          bound := bound + 1;
        } else {
          findCpuBindings := false;
          SumZero(cpuBindings[..]);
        }
      }
      assert bindingCpuId[..i + 1] == before + [bindingCpuId[i]];
      if bindingCpuId[i] == UNBOUND {
        LeaveUnbound(old(cpuBindings[..]), remaining, before, bound);
      }
      i := i + 1;
    }
    assert bindingCpuId[..i] == bindingCpuId[..];
  }

  lemma NoneBound(requested: seq<nat>)
    ensures Conserved(requested, requested, []) && Prefix([], 0) && Exhausted(requested, [], 0)
  {
  }

  lemma BindNext(requested: seq<nat>, remaining: seq<nat>, bindings: seq<int>, j: nat)
    requires Conserved(requested, remaining, bindings) && Prefix(bindings, |bindings|)
    requires Exhausted(remaining, bindings, |bindings|)
    requires j < |remaining| == MAX_CPUS && remaining[j] > 0 && forall c | 0 <= c < j :: remaining[c] == 0
    ensures var remaining' := remaining[j := remaining[j] - 1];
            && Conserved(requested, remaining', bindings + [j]) && Sum(remaining') == Sum(remaining) - 1
            && Prefix(bindings + [j], |bindings| + 1) && Exhausted(remaining', bindings + [j], |bindings| + 1)
  {
    SumDecrement(remaining, j);
    assert (bindings + [j])[..|bindings|] == bindings;
    assert forall c :: Assigned(bindings + [j], c) == Assigned(bindings, c) + (if c == j then 1 else 0);
  }

  lemma LeaveUnbound(requested: seq<nat>, remaining: seq<nat>, bindings: seq<int>, bound: nat)
    requires Conserved(requested, remaining, bindings) && Prefix(bindings, bound) && Exhausted(remaining, bindings, bound)
    ensures Conserved(requested, remaining, bindings + [UNBOUND]) && Prefix(bindings + [UNBOUND], bound)
    ensures Exhausted(remaining, bindings + [UNBOUND], bound)
  {
    assert (bindings + [UNBOUND])[..|bindings|] == bindings;
  }
}

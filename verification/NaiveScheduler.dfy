/** The round-robin example scheduler (example/naive_scheduler.cpp). */
module NaiveScheduler {
  import opened Sets
  import opened Wrappers

  type Tid = int
  type NodeId = int

  datatype Vm = Vm(id: int, cpuUsage: int, threads: set<Tid>)

  // ---------- the multimap ordered by usage ----------

  predicate Ascending(s: seq<Vm>) { forall i, j | 0 <= i < j < |s| :: s[i].cpuUsage <= s[j].cpuUsage }

  // An emplaced element goes behind its equals.
  function Emplace(s: seq<Vm>, vm: Vm): seq<Vm> {
    if s != [] && s[0].cpuUsage <= vm.cpuUsage then [s[0]] + Emplace(s[1..], vm) else [vm] + s
  }

  predicate AtLeast(s: seq<Vm>, low: int) { forall i | 0 <= i < |s| :: s[i].cpuUsage >= low }

  lemma {:induction false} EmplaceAtLeast(s: seq<Vm>, vm: Vm, low: int)
    requires AtLeast(s, low) && vm.cpuUsage >= low
    ensures AtLeast(Emplace(s, vm), low)
  {
    if s != [] && s[0].cpuUsage <= vm.cpuUsage {
      EmplaceAtLeast(s[1..], vm, low);
    }
  }

  lemma {:induction false} EmplaceKeepsOrder(s: seq<Vm>, vm: Vm)
    requires Ascending(s)
    ensures Ascending(Emplace(s, vm))
  {
    if s != [] && s[0].cpuUsage <= vm.cpuUsage {
      EmplaceKeepsOrder(s[1..], vm);
      EmplaceAtLeast(s[1..], vm, s[0].cpuUsage);
    }
  }

  lemma {:induction false} EmplaceAdds(s: seq<Vm>, vm: Vm)
    ensures multiset(Emplace(s, vm)) == multiset(s) + multiset{vm}
  {
    if s != [] && s[0].cpuUsage <= vm.cpuUsage {
      EmplaceAdds(s[1..], vm);
      assert s == [s[0]] + s[1..];
    }
  }

  /** The new element stands behind all that have no greater usage, its equals included, and before the others, which keep
      their order. */
  lemma {:induction false} EmplaceBehindEquals(s: seq<Vm>, vm: Vm) returns (k: nat)
    requires Ascending(s)
    ensures k <= |s| && Emplace(s, vm) == s[..k] + [vm] + s[k..]
    ensures forall i | 0 <= i < k :: s[i].cpuUsage <= vm.cpuUsage
    ensures forall i | k <= i < |s| :: s[i].cpuUsage > vm.cpuUsage
  {
    if s != [] && s[0].cpuUsage <= vm.cpuUsage {
      var m := EmplaceBehindEquals(s[1..], vm);
      k := m + 1;
      assert s[..k] == [s[0]] + s[1..][..m] && s[1..][m..] == s[k..];
    } else {
      k := 0;
      assert s[..0] + [vm] + s[0..] == [vm] + s;
    }
  }

  // ---------- the load of a node ----------

  // Where the wrapping iterator over n nodes stands after m steps.
  function Turn(m: nat, n: nat): (t: nat)
    requires n > 0
    ensures t < n
  {
    if m == 0 || Turn(m - 1, n) + 1 == n then 0 else Turn(m - 1, n) + 1
  }

  lemma {:induction false} TurnIsRemainder(m: nat, n: nat) returns (rounds: nat)
    requires n > 0
    ensures m == rounds * n + Turn(m, n)
  {
    if m == 0 {
      rounds := 0;
    } else {
      rounds := TurnIsRemainder(m - 1, n);
      if Turn(m, n) == 0 {
        rounds := rounds + 1;
        assert rounds * n == (rounds - 1) * n + n;
      }
    }
  }

  // The usages dealt to position r of n, and how many they are.
  ghost function Load(usages: seq<int>, n: nat, r: nat): int
    requires n > 0
  {
    if usages == [] then 0 else
    var init := usages[..|usages| - 1];
    Load(init, n, r) + (if Turn(|init|, n) == r then usages[|init|] else 0)
  }

  ghost function Count(m: nat, n: nat, r: nat): nat
    requires n > 0
  {
    if m == 0 then 0 else Count(m - 1, n, r) + (if Turn(m - 1, n) == r then 1 else 0)
  }

  predicate AscendingInts(s: seq<int>) { forall i, j | 0 <= i < j < |s| :: s[i] <= s[j] }

  // a comes before b in the deal: with as many usages each, b is ahead; with one more at a, a is.
  ghost predicate Balanced(usages: seq<int>, n: nat, a: nat, b: nat)
    requires n > 0
  {
    var la, lb, p := Load(usages, n, a), Load(usages, n, b), Turn(|usages|, n);
    if usages == [] then la == lb == 0
    else if a < p <= b then usages[0] <= la - lb <= usages[|usages| - 1]
    else 0 <= lb - la <= usages[|usages| - 1] - usages[0]
  }

  /** Dealing ascending usages round-robin interleaves the loads of any two nodes. */
  lemma {:induction false} DealInterleaves(usages: seq<int>, n: nat, a: nat, b: nat)
    requires a < b < n && AscendingInts(usages)
    ensures Balanced(usages, n, a, b)
    decreases |usages|
  {
    if usages != [] {
      var m := |usages| - 1;
      var init := usages[..m];
      DealInterleaves(init, n, a, b);
    }
  }

  lemma {:induction false} CountsDiffer(m: nat, n: nat, a: nat, b: nat)
    requires a < b < n
    ensures Count(m, n, a) == Count(m, n, b) + (if a < Turn(m, n) <= b then 1 else 0)
  {
    if m > 0 {
      CountsDiffer(m - 1, n, a, b);
    }
  }

  /** With non-negative usages the loads of any two positions differ by at most the largest usage, and
      their counts by at most one. */
  lemma LoadsBalanced(usages: seq<int>, n: nat, a: nat, b: nat)
    requires a < n && b < n && usages != [] && AscendingInts(usages) && usages[0] >= 0
    ensures -usages[|usages| - 1] <= Load(usages, n, a) - Load(usages, n, b) <= usages[|usages| - 1]
    ensures -1 <= Count(|usages|, n, a) - Count(|usages|, n, b) <= 1
  {
    if a < b {
      DealInterleaves(usages, n, a, b);
      CountsDiffer(|usages|, n, a, b);
    } else if b < a {
      DealInterleaves(usages, n, b, a);
      CountsDiffer(|usages|, n, b, a);
    }
  }

  // ---------- the scheduler ----------

  function Usages(vms: seq<Vm>): seq<int> { seq(|vms|, i requires 0 <= i < |vms| => vms[i].cpuUsage) }

  // The total usage and the number of the VMs placed on a node.
  ghost function NodeLoad(vms: seq<Vm>, placed: seq<NodeId>, node: NodeId): int
    requires |vms| == |placed|
  {
    if vms == [] then 0 else
    var m := |vms| - 1;
    NodeLoad(vms[..m], placed[..m], node) + (if placed[m] == node then vms[m].cpuUsage else 0)
  }

  ghost function NodeCount(placed: seq<NodeId>, node: NodeId): nat {
    if placed == [] then 0 else
    NodeCount(placed[..|placed| - 1], node) + (if placed[|placed| - 1] == node then 1 else 0)
  }

  predicate Distinct(nodes: seq<NodeId>) { forall i, j | 0 <= i < j < |nodes| :: nodes[i] != nodes[j] }

  ghost predicate Dealt(placed: seq<NodeId>, nodes: seq<NodeId>)
    requires nodes != []
  {
    forall k | 0 <= k < |placed| :: placed[k] == nodes[Turn(k, |nodes|)]
  }

  lemma {:induction false} NodeLoadIsLoad(vms: seq<Vm>, placed: seq<NodeId>, nodes: seq<NodeId>, r: nat)
    requires |vms| == |placed| && r < |nodes| && Distinct(nodes) && Dealt(placed, nodes)
    ensures NodeLoad(vms, placed, nodes[r]) == Load(Usages(vms), |nodes|, r)
    ensures NodeCount(placed, nodes[r]) == Count(|placed|, |nodes|, r)
    decreases |vms|
  {
    if vms != [] {
      var m := |vms| - 1;
      NodeLoadIsLoad(vms[..m], placed[..m], nodes, r);
      assert Usages(vms)[..m] == Usages(vms[..m]);
    }
  }

  // The threads of the VMs placed so far are bound to the node of their VM, and no others are.
  ghost predicate Bound(migs: map<(int, Tid), NodeId>, vms: seq<Vm>, placed: seq<NodeId>)
    requires |placed| <= |vms|
  {
    && (forall k, t | 0 <= k < |placed| && t in vms[k].threads :: Entry(migs, (vms[k].id, t)) == Some(placed[k]))
    && (forall key <- migs :: exists k :: 0 <= k < |placed| && vms[k].id == key.0 && key.1 in vms[k].threads)
  }

  lemma NoneBound(vms: seq<Vm>)
    ensures Bound(map[], vms, [])
  {
  }

  lemma BoundNext(migs: map<(int, Tid), NodeId>, migs': map<(int, Tid), NodeId>, vms: seq<Vm>, placed: seq<NodeId>, node: NodeId)
    requires |placed| < |vms| && DistinctIds(vms) && Bound(migs, vms, placed)
    requires BindsTo(migs, migs', vms[|placed|].id, vms[|placed|].threads, node)
    ensures Bound(migs', vms, placed + [node])
  {
    var m := |placed|;
    forall key | key in migs' ensures exists k :: 0 <= k < m + 1 && vms[k].id == key.0 && key.1 in vms[k].threads {
      assert Entry(migs', key).Some?;
      if !(key.0 == vms[m].id && key.1 in vms[m].threads) {
        assert key in migs;
      }
    }
  }

  predicate DistinctIds(vms: seq<Vm>) { forall i, j | 0 <= i < j < |vms| :: vms[i].id != vms[j].id }

  method SortByUsage(vms: seq<Vm>) returns (sorted: seq<Vm>)
    ensures Ascending(sorted) && multiset(sorted) == multiset(vms)
  {
    sorted := [];
    for i := 0 to |vms|
      invariant Ascending(sorted) && multiset(sorted) == multiset(vms[..i])
    {
      EmplaceKeepsOrder(sorted, vms[i]);
      EmplaceAdds(sorted, vms[i]);
      sorted := Emplace(sorted, vms[i]);
      assert vms[..i + 1] == vms[..i] + [vms[i]];
    }
    assert vms[..|vms|] == vms;
  }

  /** Every VM is placed; placement follows ascending usage and the wrapping node iterator. */
  method MyScheduler(nodes: seq<NodeId>, vms: seq<Vm>)
    returns (sorted: seq<Vm>, placed: seq<NodeId>, migs: map<(int, Tid), NodeId>)
    requires nodes != [] && Distinct(nodes)
    ensures Ascending(sorted) && multiset(sorted) == multiset(vms)
    ensures |placed| == |sorted| && Dealt(placed, nodes)
    ensures DistinctIds(sorted) ==> Bound(migs, sorted, placed)
  {
    hide Ascending, Bound, BindsTo, DistinctIds;
    sorted := SortByUsage(vms);
    NoneBound(sorted);
    placed, migs := [], map[];
    var node := 0;
    for k := 0 to |sorted|
      invariant |placed| == k && Dealt(placed, nodes)
      invariant node <= |nodes| && Turn(k, |nodes|) == (if node == |nodes| then 0 else node)
      invariant DistinctIds(sorted) ==> Bound(migs, sorted, placed)
    {
      if node == |nodes| {
        node := 0;
      }
      ghost var before := migs;
      migs := Bind(migs, sorted[k], nodes[node]);
      if DistinctIds(sorted) {
        BoundNext(before, migs, sorted, placed, nodes[node]);
      }
      placed := placed + [nodes[node]];
      node := node + 1;
    }
  }

  method Bind(migs: map<(int, Tid), NodeId>, vm: Vm, node: NodeId) returns (migs': map<(int, Tid), NodeId>)
    ensures BindsTo(migs, migs', vm.id, vm.threads, node)
  {
    migs' := migs;
    var pending := vm.threads;
    while pending != {}
      invariant pending <= vm.threads && BindsTo(migs, migs', vm.id, vm.threads - pending, node)
      decreases |pending|
    {
      var tid := Pick(pending);
      migs' := migs'[(vm.id, tid) := node];
      pending := pending - {tid};
    }
  }

  ghost predicate BindsTo(migs: map<(int, Tid), NodeId>, migs': map<(int, Tid), NodeId>, id: int, threads: set<Tid>, node: NodeId) {
    forall key :: Entry(migs', key) == if key.0 == id && key.1 in threads then Some(node) else Entry(migs, key)
  }

  function Entry(migs: map<(int, Tid), NodeId>, key: (int, Tid)): Option<NodeId> {
    if key in migs then Some(migs[key]) else None
  }

  /** For the schedule of any VMs with non-negative usages: the loads of any two nodes differ by at most the
      largest usage of a single VM, and their VM counts by at most one. */
  lemma ScheduleBalanced(nodes: seq<NodeId>, vms: seq<Vm>, sorted: seq<Vm>, placed: seq<NodeId>, a: NodeId, b: NodeId, most: int)
    requires nodes != [] && Distinct(nodes) && a in nodes && b in nodes
    requires Ascending(sorted) && multiset(sorted) == multiset(vms) && |placed| == |sorted| && Dealt(placed, nodes)
    requires forall vm <- vms :: 0 <= vm.cpuUsage <= most
    ensures vms != [] ==> -most <= NodeLoad(sorted, placed, a) - NodeLoad(sorted, placed, b) <= most
    ensures -1 <= NodeCount(placed, a) - NodeCount(placed, b) <= 1
  {
    var i :| 0 <= i < |nodes| && nodes[i] == a;
    var j :| 0 <= j < |nodes| && nodes[j] == b;
    NodeLoadIsLoad(sorted, placed, nodes, i);
    NodeLoadIsLoad(sorted, placed, nodes, j);
    if sorted != [] {
      SortedBounds(vms, sorted, most);
      hide NodeLoad, NodeCount, Load, Count, Distinct, Dealt;
      LoadsBalanced(Usages(sorted), |nodes|, i, j);
    } else {
      assert placed == [];
    }
  }

  lemma SortedBounds(vms: seq<Vm>, sorted: seq<Vm>, most: int)
    requires sorted != [] && Ascending(sorted) && multiset(sorted) == multiset(vms)
    requires forall vm <- vms :: 0 <= vm.cpuUsage <= most
    ensures var u := Usages(sorted); AscendingInts(u) && u[0] >= 0 && u[|u| - 1] <= most
  {
    forall vm | vm in sorted ensures vm in vms {
      assert vm in multiset(sorted);
    }
    assert sorted[0] in sorted && sorted[|sorted| - 1] in sorted;
  }
}

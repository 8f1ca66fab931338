/** Counting the pods of a workload that run on the nodes of some machine sets. */
module Workload {
  import opened Common

  lemma WrapStep(x: int)
    ensures Wrap32(Wrap32(x) + 1) == Wrap32(x + 1)
  {
  }

  datatype Machine = Machine(name: string, nodeRef: Option<string>)
  datatype Pod = Pod(name: string, running: bool, nodeName: string)
  /** `completions` may be unset. */
  datatype Job = Job(completions: Option<int32>, succeeded: int32, failed: int32)

  /** What one poll reads; None is a failed query. */
  datatype Snapshot = Snapshot(job: Option<Job>, pods: Option<seq<Pod>>, sets: seq<Option<seq<Machine>>>)

  /** Done ends the wait, StopTrying fails it at once, NotYet polls again; Panic is a nil dereference. */
  datatype Outcome = Done | StopTrying | NotYet | Panic

  // ---------- Which pods count ----------

  function RunsOn(nodes: set<string>): Pod -> bool {
    (p: Pod) => p.running && p.nodeName in nodes
  }

  function CountOn(nodes: set<string>, pods: seq<Pod>): nat { |Filter(RunsOn(nodes), pods)| }

  /** The nodes of some machines. */
  function NodesOf(machines: seq<Machine>): set<string> {
    set m | m in machines && m.nodeRef.Some? :: m.nodeRef.value
  }

  /** The nodes of all machine sets together. */
  function AllNodes(sets: seq<seq<Machine>>): set<string> {
    set s, m | s in sets && m in s && m.nodeRef.Some? :: m.nodeRef.value
  }

  predicate Linked(machines: seq<Machine>) { forall m :: m in machines ==> m.nodeRef.Some? }

  // ---------- The code ----------

  method IsPodRunningOnMachineSet(pod: Pod, machineList: seq<Machine>) returns (b: bool)
    ensures b <==> pod.nodeName in NodesOf(machineList)
    ensures b <==> exists m :: m in machineList && m.nodeRef == Some(pod.nodeName)
  {
    for k := 0 to |machineList|
      invariant forall j :: 0 <= j < k ==> machineList[j].nodeRef != Some(pod.nodeName)
    {
      if machineList[k].nodeRef.None? {
        continue;
      }
      if machineList[k].nodeRef.value == pod.nodeName {
        return true;
      }
    }
    return false;
  }

  method AllLinked(machines: seq<Machine>) returns (b: bool)
    ensures b == Linked(machines)
  {
    for k := 0 to |machines|
      invariant forall j :: 0 <= j < k ==> machines[j].nodeRef.Some?
    {
      if machines[k].nodeRef.None? {
        assert machines[k] in machines;
        return false;
      }
    }
    return true;
  }

  function Listed(sets: seq<Option<seq<Machine>>>): seq<seq<Machine>> {
    seq(|sets|, i requires 0 <= i < |sets| => if sets[i].Some? then sets[i].value else [])
  }

  lemma CollectedNodes(sets: seq<Option<seq<Machine>>>, machines: seq<Machine>)
    requires forall s :: s in sets ==> s.Some?
    requires forall m :: m in machines <==> exists j :: 0 <= j < |sets| && m in sets[j].value
    ensures NodesOf(machines) == AllNodes(Listed(sets))
  {
    forall n | n in AllNodes(Listed(sets))
      ensures n in NodesOf(machines)
    {
      var s, m :| s in Listed(sets) && m in s && m.nodeRef == Some(n);
      var j :| 0 <= j < |sets| && Listed(sets)[j] == s;
      assert m in sets[j].value;
    }
    forall n | n in NodesOf(machines)
      ensures n in AllNodes(Listed(sets))
    {
      var m :| m in machines && m.nodeRef == Some(n);
      var j :| 0 <= j < |sets| && m in sets[j].value;
      assert Listed(sets)[j] in Listed(sets);
    }
  }

  /** The flattened machines of all sets, unless a set cannot be listed or a machine has no node. */
  method CollectMachines(sets: seq<Option<seq<Machine>>>) returns (all: Option<seq<Machine>>)
    ensures all.Some? <==> forall s :: s in sets ==> s.Some? && Linked(s.value)
    ensures all.Some? ==> NodesOf(all.value) == AllNodes(Listed(sets)) && Linked(all.value)
  {
    var machines: seq<Machine> := [];
    for k := 0 to |sets|
      invariant forall j :: 0 <= j < k ==> sets[j].Some? && Linked(sets[j].value)
      invariant forall m :: m in machines <==> exists j :: 0 <= j < k && m in sets[j].value
    {
      if sets[k].None? {
        assert sets[k] in sets;
        return None;
      }
      var linked := AllLinked(sets[k].value);
      if !linked {
        assert sets[k] in sets;
        return None;
      }
      machines := machines + sets[k].value;
    }
    CollectedNodes(sets, machines);
    return Some(machines);
  }

  lemma CountWithin(nodes: set<string>, pods: seq<Pod>)
    ensures CountOn(nodes, pods) <= |pods|
    ensures |pods| < 0x8000_0000 ==> Wrap32(CountOn(nodes, pods)) == CountOn(nodes, pods)
  {
    FilterMembers(RunsOn(nodes), pods);
  }

  /** One more pod counts exactly if it runs on one of the nodes; and in all, the count is the number of
      positions in the list at which there is such a pod. */
  lemma CountOnExactly(nodes: set<string>, pods: seq<Pod>, p: Pod)
    ensures CountOn(nodes, []) == 0
    ensures CountOn(nodes, pods + [p]) == CountOn(nodes, pods) + if p.running && p.nodeName in nodes then 1 else 0
    ensures CountOn(nodes, pods) == |set i | 0 <= i < |pods| && pods[i].running && pods[i].nodeName in nodes|
  {
    FilterSnoc(RunsOn(nodes), pods, p);
    FilterCount(RunsOn(nodes), pods);
    assert Positions(RunsOn(nodes), pods) == set i | 0 <= i < |pods| && pods[i].running && pods[i].nodeName in nodes;
  }

  method CountRunning(pods: seq<Pod>, machines: seq<Machine>) returns (runningPods: int32)
    ensures runningPods == Wrap32(CountOn(NodesOf(machines), pods))
    ensures |pods| < 0x8000_0000 ==>
              runningPods == |set i | 0 <= i < |pods| && pods[i].running && pods[i].nodeName in NodesOf(machines)|
  {
    runningPods := 0;
    ghost var p := RunsOn(NodesOf(machines));
    for k := 0 to |pods|
      invariant runningPods == Wrap32(|Filter(p, pods[..k])|)
    {
      FilterSnoc(p, pods[..k], pods[k]);
      assert pods[..k + 1] == pods[..k] + [pods[k]];
      if !pods[k].running {
        continue;
      }
      var on := IsPodRunningOnMachineSet(pods[k], machines);
      if !on {
        continue;
      }
      WrapStep(|Filter(p, pods[..k])|);
      runningPods := Wrap32(runningPods + 1);
    }
    assert pods[..|pods|] == pods;
    CountWithin(NodesOf(machines), pods);
    CountOnExactly(NodesOf(machines), pods, Pod("", false, ""));
  }

  /** All that is needed to count was read. */
  predicate Countable(s: Snapshot) {
    s.job.Some? && s.pods.Some? && s.job.value.completions == Some(|s.pods.value|)
    && forall ms :: ms in s.sets ==> ms.Some? && Linked(ms.value)
  }

  /** A counted poll with the expected number of pods on the nodes of the machine sets. The counter
      does not wrap there: there are no more pods than a 32-bit number of completions. */
  predicate Arrived(s: Snapshot, expected: int) {
    Countable(s) && CountOn(AllNodes(Listed(s.sets)), s.pods.value) == expected
  }

  /** The number of pods is off, and some have already ended. */
  predicate Hopeless(s: Snapshot) {
    s.job.Some? && s.pods.Some?
    && s.job.value.completions.Some? && s.job.value.completions.value != |s.pods.value|
    && (s.job.value.succeeded > 0 || s.job.value.failed > 0)
  }

  /** The number of completions is read through a pointer, which is nil if it is unset. */
  predicate Crashes(s: Snapshot) {
    s.job.Some? && s.pods.Some? && s.job.value.completions.None?
  }

  /** Whether a node is covered. */
  lemma OnSomeSet(sets: seq<Option<seq<Machine>>>, node: string)
    ensures node in AllNodes(Listed(sets))
       <==> exists j, m :: 0 <= j < |sets| && sets[j].Some? && m in sets[j].value && m.nodeRef == Some(node)
  {
    if node in AllNodes(Listed(sets)) {
      var s, m :| s in Listed(sets) && m in s && m.nodeRef == Some(node);
      var j :| 0 <= j < |sets| && Listed(sets)[j] == s;
      assert sets[j].Some? && m in sets[j].value;
    }
    if j, m :| 0 <= j < |sets| && sets[j].Some? && m in sets[j].value && m.nodeRef == Some(node) {
      assert Listed(sets)[j] in Listed(sets);
    }
  }

  /** A poll in terms of what was read: the wait is over when there are as many pods as completions, every
      machine set could be listed, every machine has a node, and the expected number of pods run on a node
      of some machine of some set. */
  lemma ArrivedExactly(s: Snapshot, expected: int)
    ensures Arrived(s, expected)
       <==> && s.job.Some? && s.pods.Some? && s.job.value.completions == Some(|s.pods.value|)
            && (forall ms :: ms in s.sets ==> ms.Some? && forall m :: m in ms.value ==> m.nodeRef.Some?)
            && var pods := s.pods.value;
               var there := set i | 0 <= i < |pods| && pods[i].running
                                    && exists j, m :: 0 <= j < |s.sets| && s.sets[j].Some? && m in s.sets[j].value
                                         && m.nodeRef == Some(pods[i].nodeName);
               |there| == expected
  {
    if s.pods.Some? {
      var pods := s.pods.value;
      CountOnExactly(AllNodes(Listed(s.sets)), pods, Pod("", false, ""));
      forall i | 0 <= i < |pods|
        ensures pods[i].nodeName in AllNodes(Listed(s.sets))
           <==> exists j, m :: 0 <= j < |s.sets| && s.sets[j].Some? && m in s.sets[j].value
                  && m.nodeRef == Some(pods[i].nodeName)
      {
        OnSomeSet(s.sets, pods[i].nodeName);
      }
      assert (set i | 0 <= i < |pods| && pods[i].running && pods[i].nodeName in AllNodes(Listed(s.sets)))
          == (set i | 0 <= i < |pods| && pods[i].running
                      && exists j, m :: 0 <= j < |s.sets| && s.sets[j].Some? && m in s.sets[j].value
                           && m.nodeRef == Some(pods[i].nodeName));
    }
  }

  method PollOnce(s: Snapshot, expected: int32) returns (o: Outcome)
    ensures o.Done? <==> Arrived(s, expected)
    ensures o.StopTrying? <==> Hopeless(s)
    ensures o.Panic? <==> Crashes(s)
    ensures o.StopTrying? <==>
              && s.job.Some? && s.pods.Some? && s.job.value.completions.Some?
              && |s.pods.value| != s.job.value.completions.value && (s.job.value.succeeded > 0 || s.job.value.failed > 0)
    ensures o.Panic? <==> s.job.Some? && s.pods.Some? && s.job.value.completions.None?
  {
    if s.job.None? || s.pods.None? {
      return NotYet;
    }
    var job := s.job.value;
    if job.completions.None? {
      return Panic;
    }
    if |s.pods.value| != job.completions.value {
      return if job.succeeded > 0 || job.failed > 0 then StopTrying else NotYet;
    }
    var all := CollectMachines(s.sets);
    if all.None? {
      return NotYet;
    }
    var runningPods := CountRunning(s.pods.value, all.value);
    CountWithin(NodesOf(all.value), s.pods.value);
    return if runningPods != expected then NotYet else Done;
  }

  // ---------- The whole wait ----------

  datatype Wait = NoJob | Succeeded(poll: nat) | GaveUp(poll: nat) | Panicked(poll: nat) | TimedOut

  /** The poll ends the wait, one way or another. */
  predicate Decides(s: Snapshot, expected: int) { Arrived(s, expected) || Hopeless(s) || Crashes(s) }

  /** The wait gets as far as poll k. */
  ghost predicate Open(history: seq<Snapshot>, expected: int, k: nat) {
    k <= |history| && forall j :: 0 <= j < k ==> !Decides(history[j], expected)
  }

  /** A deciding poll after open ones is the only one. */
  lemma OnlyFirst(history: seq<Snapshot>, expected: int, k: nat)
    requires k < |history| && Open(history, expected, k) && Decides(history[k], expected)
    ensures !Open(history, expected, |history|)
    ensures forall i: nat :: (i < |history| && Open(history, expected, i) && Decides(history[i], expected)) ==> i == k
  {
  }

  /** `found` says whether the job could be read before the first poll. The first poll that decides ends
      the wait: it counts the expected pods, is hopeless, or panics. */
  method WaitForWorkloadOverMachineSets(found: bool, history: seq<Snapshot>, expected: int32) returns (r: Wait)
    ensures r == NoJob <==> !found
    ensures forall k: nat :: r == Succeeded(k) <==>
              found && k < |history| && Open(history, expected, k) && Arrived(history[k], expected)
    ensures forall k: nat :: r == GaveUp(k) <==>
              found && k < |history| && Open(history, expected, k) && Hopeless(history[k])
    ensures forall k: nat :: r == Panicked(k) <==>
              found && k < |history| && Open(history, expected, k) && Crashes(history[k])
    ensures r == TimedOut <==> found && Open(history, expected, |history|)
  {
    if !found {
      return NoJob;
    }
    for k := 0 to |history|
      invariant Open(history, expected, k)
    {
      var o := PollOnce(history[k], expected);
      if !o.NotYet? {
        OnlyFirst(history, expected, k);
      }
      match o
      case Done => return Succeeded(k);
      case StopTrying => return GaveUp(k);
      case Panic => return Panicked(k);
      case NotYet =>
    }
    r := TimedOut;
  }

  // ---------- What the count means ----------

  lemma NobodyOnNoNodes(pods: seq<Pod>)
    ensures CountOn({}, pods) == 0
  {
    FilterEmpty(RunsOn({}), pods);
  }

  /** Counting over two groups of nodes counts each pod once, however the groups overlap; for disjoint
      groups the counts add up. */
  lemma {:induction false} CountIsInclusionExclusion(a: set<string>, b: set<string>, pods: seq<Pod>)
    ensures CountOn(a + b, pods) + CountOn(a * b, pods) == CountOn(a, pods) + CountOn(b, pods)
    ensures a !! b ==> CountOn(a + b, pods) == CountOn(a, pods) + CountOn(b, pods)
  {
    if pods != [] {
      CountIsInclusionExclusion(a, b, pods[..|pods| - 1]);
    } else {
      assert CountOn(a * b, pods) == 0;
    }
    if a !! b {
      NobodyOnNoNodes(pods);
      assert a * b == {};
    }
  }

  /** The order in which pods are listed does not matter. */
  lemma CountIgnoresPodOrder(nodes: set<string>, pods: seq<Pod>, pods': seq<Pod>)
    requires multiset(pods) == multiset(pods')
    ensures CountOn(nodes, pods) == CountOn(nodes, pods')
  {
    FilterCountByMultiset(RunsOn(nodes), pods, pods');
  }

  /** The order of the machine sets, and listing one twice, do not matter. */
  lemma NodesIgnoreSetOrder(sets: seq<seq<Machine>>, sets': seq<seq<Machine>>)
    requires forall s :: s in sets <==> s in sets'
    ensures AllNodes(sets) == AllNodes(sets')
  {
  }

  /** Adding a machine set adds its nodes; the single-set version is the singleton case. */
  lemma NodesOfSets(sets: seq<seq<Machine>>, ms: seq<Machine>)
    ensures AllNodes(sets + [ms]) == AllNodes(sets) + NodesOf(ms)
    ensures AllNodes([ms]) == NodesOf(ms)
  {
    assert ms in [ms] && ms in sets + [ms];
    assert forall s :: s in sets + [ms] <==> s in sets || s == ms;
  }

  /** So a further machine set whose nodes are its own contributes exactly its own pods. */
  lemma DisjointSetsAdd(sets: seq<seq<Machine>>, ms: seq<Machine>, pods: seq<Pod>)
    requires AllNodes(sets) !! NodesOf(ms)
    ensures CountOn(AllNodes(sets + [ms]), pods) == CountOn(AllNodes(sets), pods) + CountOn(NodesOf(ms), pods)
  {
    NodesOfSets(sets, ms);
    CountIsInclusionExclusion(AllNodes(sets), NodesOf(ms), pods);
  }
}

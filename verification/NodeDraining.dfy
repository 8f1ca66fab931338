/**
 * Verifying that a machine's node is drained while the pod disruption budget is respected: every
 * poll looks again at the machine, its node, the pods on it and the replication controller.
 */
module NodeDraining {
  import opened Common
  import opened Polling

  /** The machine as read in one poll: unreadable, without node, or linked to some object. */
  datatype Link = Unreadable | NoNodeRef | Ref(kind: string, name: string)

  datatype Pod = Pod(nodeName: string, deleting: bool)

  datatype Counts = Counts(replicas: int32, readyReplicas: int32)

  /** Everything one poll may read; None is a failed query. `unschedulable` is the node's flag. */
  datatype Snapshot = Snapshot(
    machine: Link, unschedulable: Option<bool>, pods: Option<seq<Pod>>, rc: Option<Counts>)

  datatype Error = BudgetNotRespected

  /** 32-bit subtraction with wrap-around. */
  function Sub32(a: int32, b: int32): int32 { Wrap32(a - b) }

  /** Replica counts are never negative, and then the subtraction does not wrap. */
  lemma CountsDoNotWrap(a: int32, b: int32)
    requires 0 <= a && 0 <= b
    ensures Sub32(a, b) == a - b
  {
  }

  // ---------- Readings of a snapshot ----------

  predicate Linked(s: Snapshot) { s.machine.Ref? && s.machine.kind == "Node" }

  /** The poll gets as far as comparing replicas: everything can be read and the node is cordoned. */
  predicate Reaches(s: Snapshot) {
    Linked(s) && s.unschedulable == Some(true) && s.pods.Some? && s.rc.Some?
  }

  function Unready(s: Snapshot): int
    requires Reaches(s)
  {
    Sub32(s.rc.value.replicas, s.rc.value.readyReplicas)
  }

  predicate StaysOn(p: Pod, node: string) { p.nodeName == node && !p.deleting }

  function OnNode(node: string): Pod -> bool { (p: Pod) => StaysOn(p, node) }

  /** The pods still on the node that are not being deleted. */
  function PodsLeft(s: Snapshot): nat
    requires Reaches(s)
  {
    |Filter(OnNode(s.machine.name), s.pods.value)|
  }

  /** The node name the variable holds after these polls. */
  function LastLinked(history: seq<Snapshot>): string {
    if history == [] then ""
    else if Linked(history[|history| - 1]) then history[|history| - 1].machine.name
    else LastLinked(history[..|history| - 1])
  }

  // ---------- The code ----------

  /** How many pods are left, counted by position. */
  lemma LeftOnNode(pods: seq<Pod>, node: string)
    ensures |Filter(OnNode(node), pods)| == |set i | 0 <= i < |pods| && pods[i].nodeName == node && !pods[i].deleting|
  {
    FilterCount(OnNode(node), pods);
    assert Positions(OnNode(node), pods)
        == (set i | 0 <= i < |pods| && pods[i].nodeName == node && !pods[i].deleting);
  }

  method CountPods(pods: seq<Pod>, node: string) returns (podCounter: nat)
    ensures podCounter == |Filter(OnNode(node), pods)|
    ensures podCounter == |set i | 0 <= i < |pods| && pods[i].nodeName == node && !pods[i].deleting|
  {
    LeftOnNode(pods, node);
    podCounter := 0;
    for k := 0 to |pods|
      invariant podCounter == |Filter(OnNode(node), pods[..k])|
    {
      FilterSnoc(OnNode(node), pods[..k], pods[k]);
      assert pods[..k + 1] == pods[..k] + [pods[k]];
      if pods[k].nodeName == node && !pods[k].deleting {
        podCounter := podCounter + 1;
      }
    }
    assert pods[..|pods|] == pods;
  }

  method PollOnce(s: Snapshot, drained: string) returns (o: Outcome<Error>, drained': string)
    ensures drained' == if Linked(s) then s.machine.name else drained
    ensures o.Fail? <==> Reaches(s) && Unready(s) > 1
    ensures o.Satisfied? <==> Reaches(s) && Unready(s) <= 1 && PodsLeft(s) <= 2
    ensures drained' == if s.machine.Ref? && s.machine.kind == "Node" then s.machine.name else drained
  {
    drained' := drained;
    if s.machine.Unreadable? {
      return Retry, drained';
    }
    if s.machine.NoNodeRef? || s.machine.kind != "Node" {
      return Retry, drained';
    }
    drained' := s.machine.name;
    if s.unschedulable.None? {
      return Retry, drained';
    }
    if !s.unschedulable.value {
      return Retry, drained';
    }
    if s.pods.None? {
      return Retry, drained';
    }
    var podCounter := CountPods(s.pods.value, s.machine.name);
    if s.rc.None? {
      return Retry, drained';
    }
    if Sub32(s.rc.value.replicas, s.rc.value.readyReplicas) > 1 {
      return Fail(BudgetNotRespected), drained';
    }
    if podCounter > 2 {
      return Retry, drained';
    }
    return Satisfied, drained';
  }

  /** A drain that succeeds at poll k: the final poll saw the node cordoned with at most two staying
      pods; every poll that got to the replica check saw at most one unready replica; and every such
      poll but the last still had more than two pods to move. */
  ghost predicate DrainedAt(history: seq<Snapshot>, k: nat) {
    && k < |history|
    && Reaches(history[k]) && PodsLeft(history[k]) <= 2
    && (forall j :: 0 <= j <= k && Reaches(history[j]) ==> Unready(history[j]) <= 1)
    && (forall j :: 0 <= j < k && Reaches(history[j]) ==> PodsLeft(history[j]) > 2)
  }

  /** The budget was violated at poll k before the drain was over. */
  ghost predicate ViolatedAt(history: seq<Snapshot>, k: nat) {
    && k < |history|
    && Reaches(history[k]) && Unready(history[k]) > 1
    && (forall j :: 0 <= j < k && Reaches(history[j]) ==> Unready(history[j]) <= 1 && PodsLeft(history[j]) > 2)
  }

  predicate Undecided(s: Snapshot) {
    Reaches(s) ==> Unready(s) <= 1 && PodsLeft(s) > 2
  }

  lemma DecidedOnlyAtTheEnd(history: seq<Snapshot>, k: nat)
    requires k < |history| && forall j :: 0 <= j < k ==> Undecided(history[j])
    ensures DrainedAt(history, k) <==> Reaches(history[k]) && Unready(history[k]) <= 1 && PodsLeft(history[k]) <= 2
    ensures ViolatedAt(history, k) <==> Reaches(history[k]) && Unready(history[k]) > 1
    ensures forall i: nat :: i != k && (DrainedAt(history, i) || ViolatedAt(history, i)) ==> i > k && Undecided(history[k])
  {
    assert forall j :: 0 <= j < k && Reaches(history[j]) ==> Undecided(history[j]);
  }

  /** The result says exactly which of the two happened and when, and the name returned is the last
      node the machine was linked to. */
  method VerifyNodeDraining(history: seq<Snapshot>) returns (name: string, r: Result<Error>)
    ensures forall k: nat :: r == Ok(k) <==> DrainedAt(history, k)
    ensures forall k: nat :: r == Failed(k, BudgetNotRespected) <==> ViolatedAt(history, k)
    ensures r.TimedOut? ==> name == LastLinked(history)
    ensures !r.TimedOut? ==> r.polls < |history| && Linked(history[r.polls]) && name == history[r.polls].machine.name
  {
    name := "";
    for k := 0 to |history|
      invariant forall j :: 0 <= j < k ==> Undecided(history[j])
      invariant name == LastLinked(history[..k])
    {
      assert history[..k + 1][..k] == history[..k];
      var o;
      o, name := PollOnce(history[k], name);
      DecidedOnlyAtTheEnd(history, k);
      match o
      case Satisfied => return name, Ok(k);
      case Fail(BudgetNotRespected) => return name, Failed(k, BudgetNotRespected);
      case Retry =>
    }
    assert history[..|history|] == history;
    r := TimedOut;
  }

  // ---------- The verdicts in terms of what was read ----------

  ghost predicate CountsNonNegative(history: seq<Snapshot>) {
    forall j :: 0 <= j < |history| && history[j].rc.Some? ==>
      0 <= history[j].rc.value.replicas && 0 <= history[j].rc.value.readyReplicas
  }

  /** A poll that compares replicas has read them of a cordoned node the machine is linked to, and finds
      as many unready ones as there are replicas beyond the ready ones. */
  lemma PollInFields(s: Snapshot)
    requires s.rc.Some? ==> 0 <= s.rc.value.replicas && 0 <= s.rc.value.readyReplicas
    ensures Reaches(s)
       <==> && s.machine.Ref? && s.machine.kind == "Node" && s.unschedulable == Some(true)
            && s.pods.Some? && s.rc.Some?
    ensures Reaches(s) ==> Unready(s) == s.rc.value.replicas - s.rc.value.readyReplicas
    ensures Reaches(s) ==>
              var pods := s.pods.value;
              PodsLeft(s) == |set i | 0 <= i < |pods| && pods[i].nodeName == s.machine.name && !pods[i].deleting|
  {
    if Reaches(s) {
      CountsDoNotWrap(s.rc.value.replicas, s.rc.value.readyReplicas);
      LeftOnNode(s.pods.value, s.machine.name);
    }
  }

  /** The budget is violated at poll k exactly when there, with the node cordoned and everything read, more
      than one replica is missing from the ready ones, and every earlier such poll missed at most one and
      had at least three pods on the node that were not being deleted. */
  lemma ViolatedExactly(history: seq<Snapshot>, k: nat)
    requires CountsNonNegative(history) && k < |history|
    ensures ViolatedAt(history, k)
       <==> && history[k].machine.Ref? && history[k].machine.kind == "Node"
            && history[k].unschedulable == Some(true) && history[k].pods.Some? && history[k].rc.Some?
            && history[k].rc.value.replicas - history[k].rc.value.readyReplicas > 1
            && forall j ::
                 && 0 <= j < k && history[j].machine.Ref? && history[j].machine.kind == "Node"
                 && history[j].unschedulable == Some(true) && history[j].pods.Some? && history[j].rc.Some?
                 ==> var pods := history[j].pods.value;
                     && history[j].rc.value.replicas - history[j].rc.value.readyReplicas <= 1
                     && |set i | 0 <= i < |pods| && pods[i].nodeName == history[j].machine.name && !pods[i].deleting| > 2
  {
    forall j | 0 <= j <= k
      ensures Reaches(history[j]) <==>
                && history[j].machine.Ref? && history[j].machine.kind == "Node"
                && history[j].unschedulable == Some(true) && history[j].pods.Some? && history[j].rc.Some?
      ensures Reaches(history[j]) ==>
                var pods := history[j].pods.value;
                && Unready(history[j]) == history[j].rc.value.replicas - history[j].rc.value.readyReplicas
                && PodsLeft(history[j])
                   == |set i | 0 <= i < |pods| && pods[i].nodeName == history[j].machine.name && !pods[i].deleting|
    {
      PollInFields(history[j]);
    }
  }

  /** The drain is over at poll k exactly when there, with the node cordoned and everything read, at most
      two pods that are not being deleted are left on it and at most one replica is missing, and every
      earlier such poll missed at most one but had more than two pods left. */
  lemma DrainedExactly(history: seq<Snapshot>, k: nat)
    requires CountsNonNegative(history) && k < |history|
    ensures DrainedAt(history, k)
       <==> && history[k].machine.Ref? && history[k].machine.kind == "Node"
            && history[k].unschedulable == Some(true) && history[k].pods.Some? && history[k].rc.Some?
            && history[k].rc.value.replicas - history[k].rc.value.readyReplicas <= 1
            && (var pods := history[k].pods.value;
                |set i | 0 <= i < |pods| && pods[i].nodeName == history[k].machine.name && !pods[i].deleting| <= 2)
            && forall j ::
                 && 0 <= j < k && history[j].machine.Ref? && history[j].machine.kind == "Node"
                 && history[j].unschedulable == Some(true) && history[j].pods.Some? && history[j].rc.Some?
                 ==> var pods := history[j].pods.value;
                     && history[j].rc.value.replicas - history[j].rc.value.readyReplicas <= 1
                     && |set i | 0 <= i < |pods| && pods[i].nodeName == history[j].machine.name && !pods[i].deleting| > 2
  {
    forall j | 0 <= j <= k
      ensures Reaches(history[j]) <==>
                && history[j].machine.Ref? && history[j].machine.kind == "Node"
                && history[j].unschedulable == Some(true) && history[j].pods.Some? && history[j].rc.Some?
      ensures Reaches(history[j]) ==>
                var pods := history[j].pods.value;
                && Unready(history[j]) == history[j].rc.value.replicas - history[j].rc.value.readyReplicas
                && PodsLeft(history[j])
                   == |set i | 0 <= i < |pods| && pods[i].nodeName == history[j].machine.name && !pods[i].deleting|
    {
      PollInFields(history[j]);
    }
  }

  /** The name kept is that of the last poll in which the machine was linked to a node, and empty if there
      was none. */
  lemma {:induction false} LastLinkedExactly(history: seq<Snapshot>)
    ensures forall k :: 0 <= k < |history| && history[k].machine.Ref? && history[k].machine.kind == "Node"
              && (forall j :: k < j < |history| ==> !(history[j].machine.Ref? && history[j].machine.kind == "Node"))
              ==> LastLinked(history) == history[k].machine.name
    ensures (forall j :: 0 <= j < |history| ==> !(history[j].machine.Ref? && history[j].machine.kind == "Node"))
              ==> LastLinked(history) == ""
  {
    if history != [] {
      LastLinkedExactly(history[..|history| - 1]);
    }
  }
}

/**
 * Waiting for a spot machine set: every poll looks at a fresh snapshot of its machines and their
 * nodes. What does success say about the last snapshot, and about the whole history?
 */
module SpotMachineSet {
  import opened Common
  import opened Polling
  import opened Strings

  datatype Status = True | False | Unknown
  datatype NodeCondition = NodeCondition(kind: string, status: Status)
  datatype MachineCondition = MachineCondition(kind: string, status: Status, message: string)

  /** The provider status of a machine: absent, not parseable, or a list of conditions. */
  datatype ProviderStatus = NoStatus | Malformed | Conditions(list: seq<MachineCondition>)

  /** `node` is None when the machine has no node reference or the node cannot be fetched. */
  datatype Machine = Machine(
    name: string, phase: Option<string>, provider: ProviderStatus, node: Option<seq<NodeCondition>>)

  datatype Platform = AWS | Azure | OtherPlatform

  datatype Error = ListError | MachineFailed | InsufficientCapacity | StatusError | NotImplemented

  datatype Snapshot = ListingFailed | Machines(machines: seq<Machine>)

  const PHASE_RUNNING := "Running"
  const PHASE_FAILED := "Failed"
  const NODE_READY := "Ready"

  // ---------- Filters ----------

  predicate InPhase(m: Machine, phase: string) { m.phase == Some(phase) }

  function PhaseIs(phase: string): Machine -> bool { (m: Machine) => InPhase(m, phase) }

  /** Only the machines in the requested phase, in order. */
  method FilterMachines(machines: seq<Machine>, phase: string) returns (result: seq<Machine>)
    ensures result == Filter(PhaseIs(phase), machines)
    ensures forall m :: m in result <==> m in machines && m.phase == Some(phase)
  {
    result := [];
    ghost var p := PhaseIs(phase);
    for i := 0 to |machines|
      invariant result == Filter(p, machines[..i])
    {
      FilterSnoc(p, machines[..i], machines[i]);
      assert machines[..i + 1] == machines[..i] + [machines[i]];
      if machines[i].phase.Some? && machines[i].phase.value == phase {
        result := result + [machines[i]];
      }
    }
    assert machines[..|machines|] == machines;
    FilterMembers(p, machines);
    assert forall m :: p(m) <==> m.phase == Some(phase);
  }

  // ---------- First matching condition ----------

  /** The first Ready condition decides; without one the node is not ready. */
  ghost predicate Ready(conditions: seq<NodeCondition>) {
    exists k :: 0 <= k < |conditions|
      && conditions[k] == NodeCondition(NODE_READY, True)
      && forall j :: 0 <= j < k ==> conditions[j].kind != NODE_READY
  }

  method IsNodeReady(conditions: seq<NodeCondition>) returns (ready: bool)
    ensures ready <==> Ready(conditions)
    ensures ready <==> exists k :: 0 <= k < |conditions| && conditions[k] == NodeCondition("Ready", True)
                         && forall j :: 0 <= j < k ==> conditions[j].kind != "Ready"
  {
    for k := 0 to |conditions|
      invariant forall j :: 0 <= j < k ==> conditions[j].kind != NODE_READY
    {
      if conditions[k].kind == NODE_READY {
        return conditions[k].status == True;
      }
    }
    return false;
  }

  predicate Creation(c: MachineCondition) {
    (c.kind == "MachineCreation" || c.kind == "MachineCreated") && c.status == False
  }

  /** The message by which a platform reports that it is out of spot capacity. */
  function CapacityMessage(p: Platform): string
    requires !p.OtherPlatform?
  {
    if p == AWS then "InsufficientInstanceCapacity" else "SkuNotAvailable"
  }

  /** The deciding condition: the first failed creation condition. */
  ghost predicate DecidesAt(list: seq<MachineCondition>, k: nat) {
    k < |list| && Creation(list[k]) && forall j :: 0 <= j < k ==> !Creation(list[j])
  }

  /** The machine's deciding condition reports that the platform is out of capacity. */
  ghost predicate OutOfCapacity(m: Machine, p: Platform)
    requires !p.OtherPlatform?
  {
    m.provider.Conditions?
    && exists k :: 0 <= k < |m.provider.list| && DecidesAt(m.provider.list, k)
         && Contains(m.provider.list[k].message, CapacityMessage(p))
  }

  /** The same in the words of the platforms: the first condition that reports a failed creation has this
      text in its message. */
  lemma OutOfCapacityExactly(m: Machine, p: Platform, text: string)
    requires (p == AWS && text == "InsufficientInstanceCapacity") || (p == Azure && text == "SkuNotAvailable")
    ensures OutOfCapacity(m, p)
       <==> && m.provider.Conditions?
            && var list := m.provider.list;
               exists k :: 0 <= k < |list| && Contains(list[k].message, text)
                 && list[k].status == False && list[k].kind in {"MachineCreation", "MachineCreated"}
                 && forall j :: 0 <= j < k ==>
                      list[j].status != False || list[j].kind !in {"MachineCreation", "MachineCreated"}
  {
  }

  /** The verdict on one machine: an error, or whether capacity is lacking. */
  datatype Capacity = Problem(e: Error) | Lacking | Fine

  method HasInsufficientCapacity(m: Machine, p: Platform) returns (r: Capacity)
    ensures r == Problem(NotImplemented) <==> p.OtherPlatform?
    ensures r == Problem(StatusError) <==> !p.OtherPlatform? && m.provider.Malformed?
    ensures r == Lacking <==> !p.OtherPlatform? && OutOfCapacity(m, p)
    ensures r.Problem? ==> r.e in {NotImplemented, StatusError}
  {
    if p.OtherPlatform? {
      return Problem(NotImplemented);
    }
    match m.provider
    case NoStatus => return Fine;
    case Malformed => return Problem(StatusError);
    case Conditions(list) =>
      for k := 0 to |list|
        invariant forall j :: 0 <= j < k ==> !Creation(list[j])
      {
        if Creation(list[k]) {
          assert DecidesAt(list, k);
          assert forall j :: 0 <= j < |list| && DecidesAt(list, j) ==> j == k;
          var lacking := Contains(list[k].message, CapacityMessage(p));
          assert lacking <==> OutOfCapacity(m, p);
          return if lacking then Lacking else Fine;
        }
      }
      return Fine;
  }

  // ---------- One poll ----------

  /** What is wrong with a machine's capacity status, if anything is. */
  ghost function CapacityProblem(m: Machine, p: Platform): Option<Error> {
    if p.OtherPlatform? then Some(NotImplemented)
    else if m.provider.Malformed? then Some(StatusError)
    else if OutOfCapacity(m, p) then Some(InsufficientCapacity)
    else None
  }

  ghost predicate CapacityFine(m: Machine, p: Platform) { CapacityProblem(m, p).None? }

  ghost predicate AllFine(machines: seq<Machine>, p: Platform) { forall m :: m in machines ==> CapacityFine(m, p) }

  ghost function Problems(machines: seq<Machine>, p: Platform): seq<Option<Error>> {
    seq(|machines|, i requires 0 <= i < |machines| => CapacityProblem(machines[i], p))
  }

  /** The first problem there is is e. */
  ghost predicate FirstIs(problems: seq<Option<Error>>, e: Error) {
    exists i :: 0 <= i < |problems| && problems[i] == Some(e) && forall j :: 0 <= j < i ==> problems[j].None?
  }

  /** The first machine with a capacity problem has problem e. */
  ghost predicate FirstProblem(machines: seq<Machine>, p: Platform, e: Error) { FirstIs(Problems(machines, p), e) }

  ghost predicate SomeFailed(s: Snapshot)
    requires s.Machines?
  {
    exists m :: m in s.machines && InPhase(m, PHASE_FAILED)
  }

  ghost predicate FullSize(s: Snapshot, replicas: int) { s.Machines? && |s.machines| == replicas }

  /** The poll ends the wait with error e. */
  ghost predicate FailsWith(s: Snapshot, replicas: int, p: Platform, e: Error) {
    match e
    case ListError => s.ListingFailed?
    case MachineFailed => FullSize(s, replicas) && SomeFailed(s)
    case _ => FullSize(s, replicas) && !SomeFailed(s) && FirstProblem(s.machines, p, e)
  }

  ghost predicate UpAndReady(m: Machine) {
    InPhase(m, PHASE_RUNNING) && m.node.Some? && Ready(m.node.value)
  }

  /** A full-size snapshot in which nothing has gone wrong for good. */
  ghost predicate Healthy(s: Snapshot, p: Platform)
    requires s.Machines?
  {
    forall m :: m in s.machines ==> !InPhase(m, PHASE_FAILED) && CapacityFine(m, p)
  }

  ghost predicate AllUp(s: Snapshot)
    requires s.Machines?
  {
    forall m :: m in s.machines ==> UpAndReady(m)
  }

  lemma OnlyFirst(problems: seq<Option<Error>>, k: nat)
    requires k < |problems| && problems[k].Some? && forall j :: 0 <= j < k ==> problems[j].None?
    ensures forall e :: FirstIs(problems, e) <==> problems[k] == Some(e)
  {
    forall e | FirstIs(problems, e)
      ensures problems[k] == Some(e)
    {
      var i :| 0 <= i < |problems| && problems[i] == Some(e) && forall j :: 0 <= j < i ==> problems[j].None?;
      assert i == k;
    }
  }

  lemma OnlyProblem(machines: seq<Machine>, p: Platform, k: nat, e: Error)
    requires k < |machines| && CapacityProblem(machines[k], p) == Some(e)
    requires forall j :: 0 <= j < k ==> Problems(machines, p)[j].None?
    ensures !AllFine(machines, p)
    ensures forall e' :: FirstProblem(machines, p, e') <==> e' == e
  {
    OnlyFirst(Problems(machines, p), k);
    assert machines[k] in machines && !CapacityFine(machines[k], p);
  }

  /** The error with which one machine ends the poll, if it does. */
  method CapacityError(m: Machine, p: Platform) returns (e: Option<Error>)
    ensures e == CapacityProblem(m, p)
    ensures e.Some? ==> e.value in {NotImplemented, StatusError, InsufficientCapacity}
  {
    var c := HasInsufficientCapacity(m, p);
    match c
    case Problem(err) => return Some(err);
    case Lacking => return Some(InsufficientCapacity);
    case Fine => return None;
  }

  lemma NoProblem(machines: seq<Machine>, p: Platform)
    requires forall i :: 0 <= i < |machines| ==> Problems(machines, p)[i].None?
    ensures AllFine(machines, p)
    ensures forall e :: !FirstProblem(machines, p, e)
  {
    forall m | m in machines
      ensures CapacityFine(m, p)
    {
      var i :| 0 <= i < |machines| && machines[i] == m;
      assert Problems(machines, p)[i].None?;
    }
  }

  /** The first machine with a capacity problem ends the poll with an error. */
  method CheckCapacity(machines: seq<Machine>, p: Platform) returns (problem: Option<Error>)
    ensures problem.None? <==> AllFine(machines, p)
    ensures forall e :: problem == Some(e) <==> FirstProblem(machines, p, e)
    ensures problem.Some? ==> problem.value in {NotImplemented, StatusError, InsufficientCapacity}
  {
    for k := 0 to |machines|
      invariant forall j :: 0 <= j < k ==> Problems(machines, p)[j].None?
    {
      problem := CapacityError(machines[k], p);
      if problem.Some? {
        OnlyProblem(machines, p, k, problem.value);
        return;
      }
    }
    NoProblem(machines, p);
    return None;
  }

  predicate HasNode(m: Machine) { m.node.Some? }

  method AllNodesReady(running: seq<Machine>) returns (up: bool)
    ensures up <==> forall i :: 0 <= i < |running| ==> HasNode(running[i]) && Ready(running[i].node.value)
  {
    for k := 0 to |running|
      invariant forall i :: 0 <= i < k ==> HasNode(running[i]) && Ready(running[i].node.value)
    {
      if !HasNode(running[k]) {
        return false;
      }
      var ready := IsNodeReady(running[k].node.value);
      if !ready {
        return false;
      }
    }
    return true;
  }

  /** The tail of the poll: all machines running, and every node there and ready. */
  method AllRunningAndReady(machines: seq<Machine>) returns (up: bool)
    ensures up <==> forall m :: m in machines ==> UpAndReady(m)
  {
    var running := FilterMachines(machines, PHASE_RUNNING);
    FilterFull(PhaseIs(PHASE_RUNNING), machines);
    if |running| != |machines| {
      return false;
    }
    assert forall m :: m in machines ==> PhaseIs(PHASE_RUNNING)(m);
    up := AllNodesReady(running);
    assert forall i :: 0 <= i < |machines| ==> machines[i] in machines;
  }

  ghost predicate Done(s: Snapshot, replicas: int, p: Platform) {
    FullSize(s, replicas) && Healthy(s, p) && AllUp(s)
  }

  /** A poll that neither succeeds nor fails. */
  ghost predicate Undecided(s: Snapshot, replicas: int, p: Platform) {
    s.Machines? && (FullSize(s, replicas) ==> Healthy(s, p) && !AllUp(s))
  }

  /** The condition polled: what it returns says exactly what the snapshot looks like. */
  method PollOnce(s: Snapshot, replicas: int, p: Platform) returns (o: Outcome<Error>)
    ensures o.Satisfied? <==> Done(s, replicas, p)
    ensures o.Retry? <==> Undecided(s, replicas, p)
    ensures forall e :: o == Fail(e) <==> FailsWith(s, replicas, p, e)
    ensures o == Fail(ListError) <==> s.ListingFailed?
  {
    if s.ListingFailed? {
      return Fail(ListError);
    }
    if |s.machines| != replicas {
      return Retry;
    }
    var failed := FilterMachines(s.machines, PHASE_FAILED);
    FilterEmpty(PhaseIs(PHASE_FAILED), s.machines);
    if |failed| > 0 {
      assert exists m :: m in s.machines && PhaseIs(PHASE_FAILED)(m);
      return Fail(MachineFailed);
    }
    assert forall m :: m in s.machines ==> !PhaseIs(PHASE_FAILED)(m);
    var problem := CheckCapacity(s.machines, p);
    if problem.Some? {
      return Fail(problem.value);
    }
    var up := AllRunningAndReady(s.machines);
    return if up then Satisfied else Retry;
  }

  /** A poll is satisfied exactly when there are as many machines as wanted, on a platform the capacity
      test knows if there are any, all of them in phase Running with a ready node, and none has a status
      that cannot be parsed or reports lack of capacity. */
  lemma DoneExactly(s: Snapshot, replicas: int, p: Platform)
    ensures Done(s, replicas, p)
       <==> && s.Machines? && |s.machines| == replicas
            && forall m :: m in s.machines ==>
                 && m.phase == Some("Running") && m.node.Some? && Ready(m.node.value)
                 && p != OtherPlatform && m.provider != Malformed && !OutOfCapacity(m, p)
  {
  }

  /** It fails over a machine exactly when there are as many as wanted and one is in phase Failed ... */
  lemma MachineFailedExactly(s: Snapshot, replicas: int, p: Platform)
    ensures FailsWith(s, replicas, p, MachineFailed)
       <==> s.Machines? && |s.machines| == replicas && exists m :: m in s.machines && m.phase == Some("Failed")
  {
  }

  /** ... and over capacity exactly when none is, and the first machine about which there is anything to
      report lacks capacity; over a status likewise. */
  lemma CapacityFailsExactly(s: Snapshot, replicas: int, p: Platform, e: Error)
    requires e == InsufficientCapacity || e == StatusError
    ensures FailsWith(s, replicas, p, e)
       <==> && s.Machines? && |s.machines| == replicas && p != OtherPlatform
            && (forall m :: m in s.machines ==> m.phase != Some("Failed"))
            && exists i :: 0 <= i < |s.machines|
                 && (if e == StatusError then s.machines[i].provider == Malformed else OutOfCapacity(s.machines[i], p))
                 && forall j :: 0 <= j < i ==> s.machines[j].provider != Malformed && !OutOfCapacity(s.machines[j], p)
  {
    if s.Machines? {
      var problems := Problems(s.machines, p);
      forall i | 0 <= i < |s.machines|
        ensures problems[i] == Some(e) <==>
                  && p != OtherPlatform
                  && (if e == StatusError then s.machines[i].provider == Malformed else OutOfCapacity(s.machines[i], p))
        ensures problems[i].None? <==>
                  p != OtherPlatform && s.machines[i].provider != Malformed && !OutOfCapacity(s.machines[i], p)
      {
      }
    }
  }

  // ---------- The whole wait ----------

  function Wanted(replicas: Option<int>): int {
    if replicas.Some? then replicas.value else 0
  }

  datatype Wait = NoMachineSet | Polled(result: Result<Error>)

  /** Failure at poll k with error e, after polls that neither succeeded nor failed. */
  ghost predicate FailsAt(history: seq<Snapshot>, replicas: int, p: Platform, k: nat, e: Error) {
    && k < |history| && FailsWith(history[k], replicas, p, e)
    && forall j :: 0 <= j < k ==> Undecided(history[j], replicas, p)
  }

  /** A poll that fails is not undecided. */
  lemma FailsMeansDecided(s: Snapshot, n: int, p: Platform, e: Error)
    requires FailsWith(s, n, p, e)
    ensures !Undecided(s, n, p) && !Done(s, n, p)
  {
    if e != ListError && e != MachineFailed {
      var problems := Problems(s.machines, p);
      var i :| 0 <= i < |problems| && problems[i] == Some(e);
      assert s.machines[i] in s.machines;
    }
  }

  lemma FirstBroken(problems: seq<Option<Error>>, i: nat) returns (k: nat)
    requires i < |problems| && problems[i].Some?
    ensures k < |problems| && problems[k].Some? && forall j :: 0 <= j < k ==> problems[j].None?
  {
    k := i;
    if j :| 0 <= j < i && problems[j].Some? {
      k := FirstBroken(problems, j);
    }
  }

  /** A full-size snapshot that is not healthy fails. */
  lemma UnhealthyFails(s: Snapshot, n: int, p: Platform)
    requires FullSize(s, n) && !Healthy(s, p)
    ensures exists e :: FailsWith(s, n, p, e)
  {
    if SomeFailed(s) {
      assert FailsWith(s, n, p, MachineFailed);
    } else {
      var m :| m in s.machines && !CapacityFine(m, p);
      var i :| 0 <= i < |s.machines| && s.machines[i] == m;
      var k := FirstBroken(Problems(s.machines, p), i);
      assert FailsWith(s, n, p, Problems(s.machines, p)[k].value);
    }
  }

  /** A poll is done, fails with some error, or is undecided. */
  lemma Trichotomy(s: Snapshot, n: int, p: Platform)
    ensures Undecided(s, n, p) <==> !Done(s, n, p) && forall e :: !FailsWith(s, n, p, e)
  {
    if Undecided(s, n, p) {
      forall e
        ensures !FailsWith(s, n, p, e)
      {
        if FailsWith(s, n, p, e) {
          FailsMeansDecided(s, n, p, e);
        }
      }
    } else if s.ListingFailed? {
      assert FailsWith(s, n, p, ListError);
    } else if !Healthy(s, p) {
      UnhealthyFails(s, n, p);
    }
  }

  lemma FailureOnlyAtTheEnd(history: seq<Snapshot>, n: int, p: Platform, k: nat)
    requires k <= |history| && forall j :: 0 <= j < k ==> Undecided(history[j], n, p)
    ensures forall i: nat, e :: FailsAt(history, n, p, i, e) ==>
              i >= k && (i == k ==> FailsWith(history[k], n, p, e)) && (i > k ==> Undecided(history[k], n, p))
    ensures k < |history| ==> forall e :: FailsWith(history[k], n, p, e) ==> FailsAt(history, n, p, k, e)
  {
    forall i: nat, e | FailsAt(history, n, p, i, e)
      ensures i >= k && (i == k ==> FailsWith(history[k], n, p, e)) && (i > k ==> Undecided(history[k], n, p))
    {
      FailsMeansDecided(history[i], n, p, e);
    }
  }

  /** Success at poll k, said of the snapshots: at poll k exactly the wanted number of machines, all
      running with ready nodes; and up to then no listing failed, no snapshot of full size ever showed
      a failed machine or one whose deciding condition reports lack of capacity, and none before was
      all up. */
  ghost predicate SucceedsAt(history: seq<Snapshot>, replicas: int, p: Platform, k: nat) {
    && k < |history|
    && FullSize(history[k], replicas) && AllUp(history[k])
    && (forall j :: 0 <= j <= k ==> history[j].Machines? && (FullSize(history[j], replicas) ==> Healthy(history[j], p)))
    && (forall j :: 0 <= j < k ==> FullSize(history[j], replicas) ==> !AllUp(history[j]))
  }

  /** With undecided polls up to k, success can only lie at k, if k is done, or after it, if k is
      undecided too. */
  lemma SuccessOnlyAtTheEnd(history: seq<Snapshot>, n: int, p: Platform, k: nat)
    requires k < |history| && forall j :: 0 <= j < k ==> Undecided(history[j], n, p)
    ensures SucceedsAt(history, n, p, k) <==> Done(history[k], n, p)
    ensures forall i: nat :: SucceedsAt(history, n, p, i) ==>
              (i == k && Done(history[k], n, p)) || (i > k && Undecided(history[k], n, p))
  {
    forall i: nat | SucceedsAt(history, n, p, i)
      ensures (i == k && Done(history[k], n, p)) || (i > k && Undecided(history[k], n, p))
    {
      if i < k {
        assert false;
      }
    }
  }

  /** The wait is decided by the first poll that is done or fails. */
  lemma FirstDecides(history: seq<Snapshot>, replicas: int, p: Platform, k: nat, e: Error)
    requires k < |history|
    ensures SucceedsAt(history, replicas, p, k)
       <==> && Done(history[k], replicas, p)
            && forall j :: 0 <= j < k ==> !Done(history[j], replicas, p) && forall f :: !FailsWith(history[j], replicas, p, f)
    ensures FailsAt(history, replicas, p, k, e)
       <==> && FailsWith(history[k], replicas, p, e)
            && forall j :: 0 <= j < k ==> !Done(history[j], replicas, p) && forall f :: !FailsWith(history[j], replicas, p, f)
  {
    forall j | 0 <= j < |history|
      ensures Undecided(history[j], replicas, p)
         <==> !Done(history[j], replicas, p) && forall f :: !FailsWith(history[j], replicas, p, f)
    {
      Trichotomy(history[j], replicas, p);
    }
  }

  /** `spec` is the machine set as read before the first poll: its replica count is kept, and an unset
      count means zero. */
  method WaitForSpotMachineSet(history: seq<Snapshot>, spec: Option<Option<int>>, p: Platform) returns (r: Wait)
    ensures r == NoMachineSet <==> spec.None?
    ensures spec.Some? ==>
              var n := if spec.value.Some? then spec.value.value else 0;
              && (forall k: nat :: r == Polled(Ok(k)) <==> SucceedsAt(history, n, p, k))
              && (forall k: nat, e :: r == Polled(Failed(k, e)) <==> FailsAt(history, n, p, k, e))
  {
    if spec.None? {
      return NoMachineSet;
    }
    var n := Wanted(spec.value);
    for k := 0 to |history|
      invariant forall j :: 0 <= j < k ==> Undecided(history[j], n, p)
    {
      var o := PollOnce(history[k], n, p);
      SuccessOnlyAtTheEnd(history, n, p, k);
      FailureOnlyAtTheEnd(history, n, p, k);
      match o
      case Satisfied => return Polled(Ok(k));
      case Fail(e) => return Polled(Failed(k, e));
      case Retry =>
    }
    FailureOnlyAtTheEnd(history, n, p, |history|);
    return Polled(TimedOut);
  }
}

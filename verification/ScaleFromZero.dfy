/**
 * The scale-from-zero test as a whole: the machine sets built per architecture, the one selected,
 * and the check-until pair that watches them.
 */
module ScaleFromZero {
  import opened Common
  import opened ArchSelection
  import Architectures
  import CheckUntil
  import Strings

  const EXPECTED_REPLICAS := 1

  /** One poll: the replica count each get of the check returns, by set name, and the one the condition
      reads of the selected set. None is a failed get or an unset count. */
  datatype Observation = Observation(
    atCheck: string -> Option<int>, atCondition: Option<int>,
    checkCancelled: bool, conditionCancelled: bool, waitCancelled: bool)

  predicate AtZero(o: Observation, p: Params) { o.atCheck(p.name) == Some(0) }

  /** The check: every watched set can be read and has no replicas. Each failed get and the final
      comparison report a failure of their own. */
  function Check(o: Observation, watched: seq<Params>): CheckUntil.Assertion {
    var unread := Filter((p: Params) => o.atCheck(p.name).None?, watched);
    var allZero := forall p :: p in watched ==> AtZero(o, p);
    CheckUntil.Assertion(
      o.checkCancelled,
      seq(|unread|, i => "Failed to get MachineSet") + (if allZero then [] else ["replicas are not all zero"]),
      allZero)
  }

  /** The condition: the selected set has the expected replicas. */
  function Condition(o: Observation): CheckUntil.Assertion {
    var scaled := o.atCondition == Some(EXPECTED_REPLICAS);
    CheckUntil.Assertion(o.conditionCancelled, if scaled then [] else ["replicas are not as expected"], scaled)
  }

  function PollOf(o: Observation, watched: seq<Params>): CheckUntil.Poll {
    CheckUntil.Poll(Check(o, watched), Condition(o), o.waitCancelled)
  }

  function Polls(obs: seq<Observation>, watched: seq<Params>): seq<CheckUntil.Poll> {
    seq(|obs|, i requires 0 <= i < |obs| => PollOf(obs[i], watched))
  }

  lemma CheckPassesExactly(o: Observation, watched: seq<Params>)
    ensures CheckUntil.Passes(Check(o, watched)) <==> !o.checkCancelled && forall p :: p in watched ==> AtZero(o, p)
  {
  }

  /** Every set of another architecture than the selected one is at zero. */
  ghost predicate OthersAtZero(o: Observation, list: seq<Params>, arch: string) {
    forall i :: 0 <= i < |list| && list[i].arch != arch ==> o.atCheck(list[i].name) == Some(0)
  }

  lemma AllButOne(list: seq<Params>, s: nat, o: Observation)
    requires s < |list|
    ensures (forall p :: p in list[..s] + list[s + 1..] ==> AtZero(o, p))
       <==> forall i :: 0 <= i < |list| && i != s ==> AtZero(o, list[i])
  {
    var rest := list[..s] + list[s + 1..];
    assert forall i :: 0 <= i < |rest| ==> rest[i] == list[if i < s then i else i + 1];
    if forall p :: p in rest ==> AtZero(o, p) {
      forall i | 0 <= i < |list| && i != s
        ensures AtZero(o, list[i])
      {
        assert rest[if i < s then i else i - 1] == list[i];
      }
    }
  }

  /** What is watched are the sets of the other architectures. */
  lemma WatchedAreTheOthers(ws: seq<Worker>, list: seq<Params>, s: nat, o: Observation)
    requires ListedFor(ws, list) && s < |list|
    requires DistinctNames(list)
    ensures (forall p :: p in Filter(OtherThan(list[s].name), list) ==> AtZero(o, p))
       <==> OthersAtZero(o, list, list[s].arch)
  {
    ExactlyTheOthersWatched(ws, list, s);
    AllButOne(list, s, o);
  }

  // ---------- The verdict of the test ----------

  /** The sets the check watches: all but the one selected. */
  function Watch(list: seq<Params>): seq<Params> {
    var expected := Expected(list);
    if expected.Some? then Filter(OtherThan(expected.value.name), list) else []
  }

  /** The architecture the workload asks for. */
  function Asked(list: seq<Params>): string { Selected(list, |list|).arch }

  /** The condition asks the selected set for its name, and before it compares prints the replica count:
      both through pointers, which are nil if nothing was selected and if no count was read. */
  predicate Panics(o: Observation, list: seq<Params>) {
    !o.conditionCancelled && (list == [] || o.atCondition.None?)
  }

  datatype Verdict = Decided(v: CheckUntil.Verdict) | Panicked(poll: nat)

  /** How many polls complete before one panics. */
  function Completed(obs: seq<Observation>, list: seq<Params>): (n: nat)
    ensures n <= |obs| && (n < |obs| ==> Panics(obs[n], list)) && forall j :: 0 <= j < n ==> !Panics(obs[j], list)
  {
    if obs == [] || Panics(obs[0], list) then 0 else 1 + Completed(obs[1..], list)
  }

  /** The polls up to the first panic decide, or else that panic does. */
  function TestVerdict(obs: seq<Observation>, list: seq<Params>): Verdict {
    var n := Completed(obs, list);
    var v := CheckUntil.VerdictOf(Polls(obs[..n], Watch(list)), 0);
    if v.Unfinished? && n < |obs| then Panicked(n) else Decided(v)
  }

  /** The poll goes on: there is a selected set, it is not scaled yet, every set of another architecture
      is at zero, and nothing is cancelled. */
  ghost predicate GoesOn(o: Observation, list: seq<Params>) {
    && list != [] && o.atCondition.Some? && o.atCondition.value != 1
    && OthersAtZero(o, list, Asked(list))
    && !o.checkCancelled && !o.conditionCancelled && !o.waitCancelled
  }

  /** Poll k finds the selected set scaled, after polls that all go on. */
  ghost predicate ScaledAt(obs: seq<Observation>, list: seq<Params>, k: nat) {
    && k < |obs| && list != [] && obs[k].atCondition == Some(1) && !obs[k].conditionCancelled
    && forall j :: 0 <= j < k ==> GoesOn(obs[j], list)
  }

  /** The check over what is watched, in terms of what was built. */
  lemma WatchReads(ws: seq<Worker>, list: seq<Params>, o: Observation)
    requires ListedFor(ws, list) && DistinctNames(list) && list != []
    ensures (forall p :: p in Watch(list) ==> AtZero(o, p)) <==> OthersAtZero(o, list, Asked(list))
  {
    SelectedIsListed(list, |list|);
    WatchedAreTheOthers(ws, list, Selected(list, |list|).at.value, o);
  }

  /** A poll that completes, in the terms of CheckUntil. */
  lemma PollReads(ws: seq<Worker>, list: seq<Params>, o: Observation)
    requires ListedFor(ws, list) && DistinctNames(list) && !Panics(o, list)
    ensures CheckUntil.Passes(PollOf(o, Watch(list)).condition)
       <==> list != [] && !o.conditionCancelled && o.atCondition == Some(EXPECTED_REPLICAS)
    ensures CheckUntil.GoesOn(PollOf(o, Watch(list))) <==> GoesOn(o, list)
  {
    CheckPassesExactly(o, Watch(list));
    if list != [] {
      WatchReads(ws, list, o);
    }
  }

  /** A prefix of a history observes a prefix of the moments. */
  lemma MonotonePrefix(obs: seq<Observation>, watched: seq<Params>, n: nat)
    requires n <= |obs| && CheckUntil.Monotone(Polls(obs, watched))
    ensures CheckUntil.Monotone(Polls(obs[..n], watched))
    ensures forall j :: 0 <= j < n ==> Polls(obs[..n], watched)[j] == PollOf(obs[j], watched)
  {
    var polls, prefix := Polls(obs, watched), Polls(obs[..n], watched);
    assert forall j :: 0 <= j < n ==> prefix[j] == polls[j];
    forall i, j | 0 <= i < j < 3 * n && j % 3 != 2 && CheckUntil.Observed(prefix, i)
      ensures CheckUntil.Observed(prefix, j)
    {
      assert CheckUntil.Observed(polls, i) && CheckUntil.Observed(polls, j);
    }
  }

  /** In polls that all complete, success is the first scaled poll after polls that go on. */
  lemma SuccessInPrefix(ws: seq<Worker>, list: seq<Params>, obs: seq<Observation>, n: nat, k: nat)
    requires ListedFor(ws, list) && DistinctNames(list) && k < n <= |obs|
    requires forall j :: 0 <= j < n ==> !Panics(obs[j], list)
    requires CheckUntil.Monotone(Polls(obs, Watch(list)))
    ensures CheckUntil.VerdictOf(Polls(obs[..n], Watch(list)), 0) == CheckUntil.Succeeded(k)
       <==> ScaledAt(obs, list, k)
  {
    var polls := Polls(obs[..n], Watch(list));
    MonotonePrefix(obs, Watch(list), n);
    CheckUntil.SucceedsExactly(polls, k);
    forall j | 0 <= j <= k
      ensures CheckUntil.GoesOn(polls[j]) <==> GoesOn(obs[j], list)
      ensures CheckUntil.Passes(polls[j].condition)
         <==> list != [] && !obs[j].conditionCancelled && obs[j].atCondition == Some(EXPECTED_REPLICAS)
    {
      PollReads(ws, list, obs[j]);
    }
    assert (forall j :: 0 <= j < k ==> CheckUntil.GoesOn(polls[j]))
      <==> && (forall j :: 0 <= j < k ==> !CheckUntil.Passes(polls[j].condition) && CheckUntil.Passes(polls[j].check))
           && (forall j :: 0 <= j < k ==> !polls[j].condition.cancelled && !polls[j].cancelledWait);
  }

  lemma VerdictSucceeds(obs: seq<Observation>, list: seq<Params>, k: nat)
    ensures TestVerdict(obs, list) == Decided(CheckUntil.Succeeded(k))
       <==> k < Completed(obs, list)
            && CheckUntil.VerdictOf(Polls(obs[..Completed(obs, list)], Watch(list)), 0) == CheckUntil.Succeeded(k)
  {
    if k >= Completed(obs, list) {
      CheckUntil.SucceedsWithin(Polls(obs[..Completed(obs, list)], Watch(list)), k);
    }
  }

  lemma PanicStops(obs: seq<Observation>, list: seq<Params>, k: nat)
    requires Completed(obs, list) <= k < |obs|
    ensures !ScaledAt(obs, list, k)
  {
    var n := Completed(obs, list);
    assert Panics(obs[n], list) && !GoesOn(obs[n], list);
  }

  /** The test succeeds at poll k if and only if at poll k the selected set has exactly one replica,
      and at every earlier poll it could be read but did not have one yet, while every machine set of
      any other architecture stayed at zero and nothing was cancelled. */
  lemma TestSucceedsExactly(ws: seq<Worker>, list: seq<Params>, obs: seq<Observation>, k: nat)
    requires ListedFor(ws, list) && DistinctNames(list) && k < |obs|
    requires CheckUntil.Monotone(Polls(obs, Watch(list)))
    ensures TestVerdict(obs, list) == Decided(CheckUntil.Succeeded(k)) <==> ScaledAt(obs, list, k)
  {
    VerdictSucceeds(obs, list, k);
    if k < Completed(obs, list) {
      SuccessInPrefix(ws, list, obs, Completed(obs, list), k);
    } else {
      PanicStops(obs, list, k);
    }
  }

  /** If the condition of poll k found the context open, nothing was cancelled before it. */
  lemma UncancelledBefore(obs: seq<Observation>, watched: seq<Params>, k: nat)
    requires k < |obs| && !obs[k].conditionCancelled && CheckUntil.Monotone(Polls(obs, watched))
    ensures forall p :: p in Polls(obs[..k], watched) ==>
              !p.check.cancelled && !p.condition.cancelled && !p.cancelledWait
  {
    var polls := Polls(obs, watched);
    forall j | 0 <= j < k
      ensures !polls[j].check.cancelled && !polls[j].condition.cancelled && !polls[j].cancelledWait
    {
      if polls[j].check.cancelled || polls[j].condition.cancelled || polls[j].cancelledWait {
        CheckUntil.MonotoneStep(polls, j, k);
        assert false;
      }
    }
    assert forall j :: 0 <= j < k ==> Polls(obs[..k], watched)[j] == polls[j];
  }

  lemma GoingOnReads(ws: seq<Worker>, list: seq<Params>, obs: seq<Observation>, k: nat)
    requires ListedFor(ws, list) && DistinctNames(list) && k <= |obs|
    requires forall j :: 0 <= j < k ==> !Panics(obs[j], list)
    ensures (forall p :: p in Polls(obs[..k], Watch(list)) ==> CheckUntil.GoesOn(p))
       <==> forall j :: 0 <= j < k ==> GoesOn(obs[j], list)
  {
    var polls := Polls(obs[..k], Watch(list));
    forall j | 0 <= j < k
      ensures CheckUntil.GoesOn(polls[j]) <==> GoesOn(obs[j], list)
    {
      PollReads(ws, list, obs[j]);
    }
    if forall p :: p in polls ==> CheckUntil.GoesOn(p) {
      forall j | 0 <= j < k
        ensures GoesOn(obs[j], list)
      {
        assert polls[j] in polls;
      }
    }
  }

  /** It panics at poll k if and only if that is the first poll that does not go on, its condition finds
      the context open, and there is no selected set or it cannot be read. */
  lemma TestPanicsExactly(ws: seq<Worker>, list: seq<Params>, obs: seq<Observation>, k: nat)
    requires ListedFor(ws, list) && DistinctNames(list) && k < |obs|
    requires CheckUntil.Monotone(Polls(obs, Watch(list)))
    ensures TestVerdict(obs, list) == Panicked(k)
       <==> Panics(obs[k], list) && forall j :: 0 <= j < k ==> GoesOn(obs[j], list)
  {
    if Panics(obs[k], list) && k == Completed(obs, list) {
      MonotonePrefix(obs, Watch(list), k);
      UncancelledBefore(obs, Watch(list), k);
      CheckUntil.UndecidedExactly(Polls(obs[..k], Watch(list)));
      GoingOnReads(ws, list, obs, k);
    }
  }

  /** With a first observation in which a selected set could be read, the test panics in its first poll
      exactly when no worker's architecture can be resolved and the condition finds the context open. */
  lemma NothingToScaleExactly(ws: seq<Worker>, list: seq<Params>, obs: seq<Observation>)
    requires ListedFor(ws, list) && DistinctNames(list) && obs != [] && obs[0].atCondition.Some?
    requires CheckUntil.Monotone(Polls(obs, Watch(list)))
    ensures TestVerdict(obs, list) == Panicked(0)
       <==> (forall i :: 0 <= i < |ws| ==> ArchOf(ws[i]).None?) && !obs[0].conditionCancelled
  {
    NothingListedExactly(ws, list);
    TestPanicsExactly(ws, list, obs, 0);
  }

  // ---------- An empty architecture ----------

  lemma ListedForTwo(a: Worker, b: Worker, p: Params, q: Params)
    requires ArchOf(a) == Some(p.arch) && ArchOf(b) == Some(q.arch) && p.arch != q.arch
    ensures ListedFor([a, b], [p, q])
  {
    var ws := [a, b];
    assert FirstOfItsKind(ws, 0) && FirstOfItsKind(ws, 1);
    assert Firsts(ws, 0) == [] && Firsts(ws, 1) == [0] && Firsts(ws, 2) == [0, 1];
  }

  lemma OtherThenAmd64(p: Params, q: Params)
    requires p.arch == "" && q.arch == AMD64
    ensures Selected([p, q], 2) == Selection(AMD64, Some(1))
  {
    SelectedExactly([p, q], 0);
  }

  lemma EmptyValueRead(l: Architectures.Label, r: Architectures.Reading)
    requires l.key == Architectures.ARCH_LABEL && l.value == ""
    requires Architectures.ReadsAs(Architectures.Annotation([l]), r)
    ensures r == Architectures.Arch("")
  {
    Architectures.ArchitectureLabel(l);
    Architectures.LoneLabelReadsBack(l, r);
  }

  /** The preference for architectures other than amd64 fails on an input the code can receive: a first
      worker a without nodes, whose annotation names the architecture label with an empty value, and a
      second one b on amd64. */
  lemma EmptyArchitectureLoses(l: Architectures.Label, a: Worker, b: Worker, p: Params, q: Params)
    requires l.key == "kubernetes.io/arch" && l.value == ""
    requires Architectures.ReadsAs(Architectures.Annotation([l]), a.reading)
    requires b.reading == Architectures.Arch("amd64") && p.arch == "" && q.arch == "amd64"
    ensures ListedFor([a, b], [p, q]) && Selected([p, q], 2) == Selection("amd64", Some(1))
  {
    EmptyValueRead(l, a.reading);
    ListedForTwo(a, b, p, q);
    OtherThenAmd64(p, q);
  }
}

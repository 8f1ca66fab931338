/**
 * Reconciling the OperatorGroups of a namespace with the wanted mode. The state is the list of
 * groups in the order the API lists them; creates and deletes take effect at once.
 */
module OperatorGroups {
  import opened Common

  /** spec.targetNamespaces as the helper reads it: anything but a list of strings reads as empty. */
  datatype Targets = Absent | Malformed | Names(names: seq<string>)

  datatype Group = Group(name: string, targets: Targets)

  /** How the scan of the listed groups ends. */
  datatype Scan = Match | NoMatch | Refused

  datatype Result = Ok | ListError | DeleteError | CreateError

  function ReadTargets(t: Targets): seq<string> {
    if t.Names? then t.names else []
  }

  predicate IsAllNamespaces(g: Group) { |ReadTargets(g.targets)| == 0 }

  predicate Matches(g: Group, allNamespaces: bool) { IsAllNamespaces(g) == allNamespaces }

  function GroupName(ns: string): string { ns + "-og" }

  /** The group created when none matches. */
  function NewGroup(ns: string, allNamespaces: bool): Group {
    Group(GroupName(ns), if allNamespaces then Absent else Names([ns]))
  }

  /** How many groups at the front have the wrong mode. */
  function LeadingMismatches(groups: seq<Group>, allNamespaces: bool): (n: nat)
    ensures n <= |groups|
  {
    if groups == [] || Matches(groups[0], allNamespaces) then 0
    else 1 + LeadingMismatches(groups[1..], allNamespaces)
  }

  lemma {:induction false} FirstMatch(groups: seq<Group>, allNamespaces: bool)
    ensures var n := LeadingMismatches(groups, allNamespaces);
            && (forall i :: 0 <= i < n ==> !Matches(groups[i], allNamespaces))
            && (n < |groups| ==> Matches(groups[n], allNamespaces))
  {
    if groups != [] && !Matches(groups[0], allNamespaces) {
      FirstMatch(groups[1..], allNamespaces);
    }
  }

  /** What a reconcile that meets no API error leaves behind. */
  function Reconciled(groups: seq<Group>, ns: string, allNamespaces: bool): seq<Group> {
    var n := LeadingMismatches(groups, allNamespaces);
    if n < |groups| then groups[n..] else [NewGroup(ns, allNamespaces)]
  }

  ghost predicate UniqueNames(groups: seq<Group>) {
    forall i, j :: 0 <= i < j < |groups| ==> groups[i].name != groups[j].name
  }

  /** How many writes a reconcile makes: one per leading mismatch, and the create if there is no match. */
  function Writes(groups: seq<Group>, allNamespaces: bool): nat {
    var n := LeadingMismatches(groups, allNamespaces);
    if n < |groups| then n else n + 1
  }

  /** The first n writes go through. */
  ghost predicate Allows(refuse: nat -> bool, n: nat) { forall k :: 0 <= k < n ==> !refuse(k) }

  /** With unique names, deleting the first group by name drops exactly it. */
  lemma DropFirst(groups: seq<Group>)
    requires UniqueNames(groups) && groups != []
    ensures Filter((g: Group) => g.name != groups[0].name, groups) == groups[1..]
  {
    FilterDropOne((g: Group) => g.name != groups[0].name, groups, 0);
  }

  class Namespace {
    const ns: string
    var groups: seq<Group>

    constructor (ns: string, groups: seq<Group>)
      ensures this.ns == ns && this.groups == groups
    {
      this.ns, this.groups := ns, groups;
    }

    /** Delete by name; the API may refuse. */
    method Delete(name: string, refuse: bool) returns (ok: bool)
      modifies this`groups
      ensures ok == !refuse
      ensures groups == if ok then Filter((g: Group) => g.name != name, old(groups)) else old(groups)
    {
      ok := !refuse;
      if ok {
        groups := Filter((g: Group) => g.name != name, groups);
      }
    }

    /** Delete the first of the groups still listed. */
    method DeleteFirst(refuse: bool) returns (ok: bool)
      requires UniqueNames(groups) && groups != []
      modifies this`groups
      ensures ok == !refuse && UniqueNames(groups)
      ensures groups == if ok then old(groups)[1..] else old(groups)
    {
      DropFirst(groups);
      ok := Delete(groups[0].name, refuse);
    }

    /** Create fails if the API refuses or the name is taken. */
    method Create(g: Group, refuse: bool) returns (ok: bool)
      modifies this`groups
      ensures ok == (!refuse && forall h :: h in old(groups) ==> h.name != g.name)
      ensures groups == if ok then old(groups) + [g] else old(groups)
    {
      ok := !refuse && forall h :: h in groups ==> h.name != g.name;
      if ok {
        groups := groups + [g];
      }
    }

    /** The loop over the listed groups: delete until a group matches or a delete is refused. */
    method DropMismatches(allNamespaces: bool, refuse: nat -> bool) returns (s: Scan, ghost dropped: nat)
      requires UniqueNames(groups)
      modifies this`groups
      ensures var n := LeadingMismatches(old(groups), allNamespaces);
              && dropped <= n && groups == old(groups)[dropped..] && Allows(refuse, dropped)
              && match s
                 case Match => dropped == n < |old(groups)|
                 case NoMatch => dropped == n == |old(groups)|
                 case Refused => dropped < n && refuse(dropped)
    {
      var listed := groups;
      FirstMatch(listed, allNamespaces);
      dropped := 0;
      for i := 0 to |listed|
        invariant groups == listed[i..] && UniqueNames(groups)
        invariant dropped == i <= LeadingMismatches(listed, allNamespaces) && Allows(refuse, i)
      {
        if IsAllNamespaces(listed[i]) == allNamespaces {
          return Match, dropped;
        }
        var ok := DeleteFirst(refuse(i));
        if !ok {
          return Refused, dropped;
        }
        dropped := dropped + 1;
      }
      return NoMatch, dropped;
    }

    /** `refuse(k)` says whether the API refuses the k-th write. A failed call has dropped some of
        the leading mismatches and nothing else. */
    method EnsureOperatorGroupWithMode(allNamespaces: bool, listFails: bool, refuse: nat -> bool)
      returns (r: Result, ghost dropped: nat)
      requires UniqueNames(groups)
      modifies this`groups
      ensures r == ListError <==> listFails
      ensures r == Ok <==> !listFails && Allows(refuse, Writes(old(groups), allNamespaces))
      ensures r == Ok ==> groups == Reconciled(old(groups), ns, allNamespaces)
      ensures r == DeleteError <==>
                !listFails && exists k :: 0 <= k < LeadingMismatches(old(groups), allNamespaces) && refuse(k)
      ensures r == CreateError <==>
                && !listFails && LeadingMismatches(old(groups), allNamespaces) == |old(groups)|
                && Allows(refuse, |old(groups)|) && refuse(|old(groups)|)
      ensures r != Ok ==> dropped <= LeadingMismatches(old(groups), allNamespaces) && groups == old(groups)[dropped..]
      ensures r == ListError ==> groups == old(groups)
      ensures r == DeleteError ==> refuse(dropped) && Allows(refuse, dropped)
      ensures r == CreateError ==> groups == []
    {
      if listFails {
        return ListError, 0;
      }
      var written := |groups|;
      var s;
      s, dropped := DropMismatches(allNamespaces, refuse);
      match s
      case Match =>
        return Ok, dropped;
      case Refused =>
        return DeleteError, dropped;
      case NoMatch =>
        var ok := Create(NewGroup(ns, allNamespaces), refuse(written));
        return if ok then Ok else CreateError, dropped;
    }
  }

  // ---------- What a reconcile achieves ----------

  /** A group watches all namespaces exactly when it does not list any as strings, and then it matches the
      wish for that; otherwise it matches the other. */
  lemma MatchesExactly(g: Group, allNamespaces: bool)
    ensures Matches(g, allNamespaces)
       <==> if g.targets.Names? && g.targets.names != [] then !allNamespaces else allNamespaces
  {
  }

  /** A match lies at or after the first match. */
  lemma MatchKept(groups: seq<Group>, allNamespaces: bool, g: Group)
    requires g in groups && Matches(g, allNamespaces)
    ensures var n := LeadingMismatches(groups, allNamespaces);
            n < |groups| && g in groups[n..]
  {
    var n := LeadingMismatches(groups, allNamespaces);
    FirstMatch(groups, allNamespaces);
    var i :| 0 <= i < |groups| && groups[i] == g;
    assert groups[n..][i - n] == g;
  }

  lemma SomeMatchExactly(groups: seq<Group>, allNamespaces: bool)
    ensures LeadingMismatches(groups, allNamespaces) < |groups| <==> exists g :: g in groups && Matches(g, allNamespaces)
  {
    var n := LeadingMismatches(groups, allNamespaces);
    FirstMatch(groups, allNamespaces);
    if n < |groups| {
      assert groups[n] in groups;
    } else if g :| g in groups && Matches(g, allNamespaces) {
      MatchKept(groups, allNamespaces, g);
    }
  }

  /** A group of the wanted mode exists afterwards, every group that had it is still there, and what
      is gone had the wrong mode. */
  lemma ReconcileAchieves(groups: seq<Group>, ns: string, allNamespaces: bool)
    ensures var after := Reconciled(groups, ns, allNamespaces);
            && after != [] && Matches(after[0], allNamespaces)
            && (forall g :: g in groups && Matches(g, allNamespaces) ==> g in after)
            && (forall g :: g in after ==> g in groups || g == NewGroup(ns, allNamespaces))
            && after == if exists g :: g in groups && Matches(g, allNamespaces)
                        then groups[LeadingMismatches(groups, allNamespaces)..]
                        else [Group(ns + "-og", if allNamespaces then Absent else Names([ns]))]
  {
    FirstMatch(groups, allNamespaces);
    SomeMatchExactly(groups, allNamespaces);
    forall g | g in groups && Matches(g, allNamespaces)
      ensures g in Reconciled(groups, ns, allNamespaces)
    {
      MatchKept(groups, allNamespaces, g);
    }
  }

  /** A second call on the same order changes nothing. */
  lemma ReconcileIsIdempotent(groups: seq<Group>, ns: string, allNamespaces: bool)
    ensures var after := Reconciled(groups, ns, allNamespaces);
            Reconciled(after, ns, allNamespaces) == after
  {
    FirstMatch(groups, allNamespaces);
    FirstMatch(Reconciled(groups, ns, allNamespaces), allNamespaces);
  }

  /** Asking for the other mode replaces a lone created group. */
  lemma SwitchReplacesLoneGroup(ns: string, allNamespaces: bool)
    ensures Reconciled([NewGroup(ns, allNamespaces)], ns, !allNamespaces) == [NewGroup(ns, !allNamespaces)]
  {
    assert [NewGroup(ns, allNamespaces)][1..] == [];
  }

  /** The comment over the loop promises that every group of the wrong mode is deleted. The early
      return keeps those after the first match; the promise is kept exactly when there are none. */
  lemma OnlyWantedModeExactly(groups: seq<Group>, ns: string, allNamespaces: bool)
    ensures (forall g :: g in Reconciled(groups, ns, allNamespaces) ==> Matches(g, allNamespaces))
       <==> forall i, j :: 0 <= i < j < |groups| && Matches(groups[i], allNamespaces) ==> Matches(groups[j], allNamespaces)
  {
    var n := LeadingMismatches(groups, allNamespaces);
    var after := Reconciled(groups, ns, allNamespaces);
    FirstMatch(groups, allNamespaces);
    if n < |groups| {
      if forall g :: g in after ==> Matches(g, allNamespaces) {
        forall i, j | 0 <= i < j < |groups| && Matches(groups[i], allNamespaces)
          ensures Matches(groups[j], allNamespaces)
        {
          assert after[j - n] in after;
        }
      }
    }
  }

  /** The smallest instance of that difference. */
  lemma StaleGroupSurvives(ns: string)
    ensures var keep, stale := Group("a", Absent), Group("b", Names([ns]));
            Reconciled([keep, stale], ns, true) == [keep, stale] && !Matches(stale, true)
  {
  }
}

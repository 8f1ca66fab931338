/** Looking up machines by UID: a length shortcut and a hash set against plain inclusion. */
module MachinesPresent {
  datatype Machine = Machine(uid: string)

  predicate Exists(existing: seq<Machine>, uid: string) { exists m :: m in existing && m.uid == uid }

  /** What the search is for: every given machine exists. */
  predicate AllExist(existing: seq<Machine>, machines: seq<Machine>) {
    forall m :: m in machines ==> Exists(existing, m.uid)
  }

  predicate Answer(existing: seq<Machine>, machines: seq<Machine>) {
    |existing| >= |machines| && AllExist(existing, machines)
  }

  method MachinesPresent(existing: seq<Machine>, machines: seq<Machine>) returns (found: bool)
    ensures found == Answer(existing, machines)
    ensures found <==> |existing| >= |machines| && forall m :: m in machines ==> exists e :: e in existing && e.uid == m.uid
  {
    if |existing| < |machines| {
      return false;
    }
    var uids: map<string, ()> := map[];
    for k := 0 to |existing|
      invariant forall u :: u in uids <==> exists j :: 0 <= j < k && existing[j].uid == u
    {
      uids := uids[existing[k].uid := ()];
    }
    for k := 0 to |machines|
      invariant forall j :: 0 <= j < k ==> Exists(existing, machines[j].uid)
    {
      if machines[k].uid !in uids {
        assert machines[k] in machines && !Exists(existing, machines[k].uid);
        return false;
      }
      var j :| 0 <= j < |existing| && existing[j].uid == machines[k].uid;
      assert existing[j] in existing;
    }
    return true;
  }

  ghost predicate Distinct(machines: seq<Machine>) {
    forall i, j :: 0 <= i < j < |machines| ==> machines[i].uid != machines[j].uid
  }

  function Uids(machines: seq<Machine>): set<string> { set m | m in machines :: m.uid }

  lemma UidsSnoc(init: seq<Machine>, x: Machine)
    ensures Uids(init + [x]) == Uids(init) + {x.uid}
    ensures Distinct(init + [x]) ==> Distinct(init) && x.uid !in Uids(init)
  {
    var machines := init + [x];
    assert forall m :: m in machines <==> m in init || m == x;
    if Distinct(machines) {
      assert forall i :: 0 <= i < |init| ==> machines[i] == init[i] && machines[i].uid != machines[|init|].uid;
    }
  }

  lemma {:induction false} UidCount(machines: seq<Machine>)
    ensures |Uids(machines)| <= |machines|
    ensures Distinct(machines) ==> |Uids(machines)| == |machines|
  {
    if machines != [] {
      var init, x := machines[..|machines| - 1], machines[|machines| - 1];
      UidCount(init);
      assert machines == init + [x];
      UidsSnoc(init, x);
    }
  }

  lemma SubsetCount(a: set<string>, b: set<string>)
    requires a <= b
    ensures |a| <= |b|
  {
    assert b == a + (b - a);
  }

  /** Distinct machines cannot all exist in a shorter list, even one with duplicates. */
  lemma ShortcutIsSound(existing: seq<Machine>, machines: seq<Machine>)
    requires Distinct(machines) && AllExist(existing, machines)
    ensures |machines| <= |existing|
  {
    UidCount(machines);
    UidCount(existing);
    assert Uids(machines) <= Uids(existing);
    SubsetCount(Uids(machines), Uids(existing));
  }

  /** Keep one machine per UID. */
  function Dedup(machines: seq<Machine>): seq<Machine> {
    if machines == [] then []
    else
      var rest, x := Dedup(machines[1..]), machines[0];
      if Exists(rest, x.uid) then rest else [x] + rest
  }

  lemma {:induction false} DedupShrinks(machines: seq<Machine>)
    ensures |Dedup(machines)| <= |machines|
    ensures AllExist(Dedup(machines), machines)
    ensures |Dedup(machines)| == |machines| ==> Dedup(machines) == machines && Distinct(machines)
  {
    if machines != [] {
      var rest, x := machines[1..], machines[0];
      DedupShrinks(rest);
      assert machines == [x] + rest;
      forall m | m in machines
        ensures Exists(Dedup(machines), m.uid)
      {
        if m in rest {
          assert Exists(Dedup(rest), m.uid);
        }
        if !Exists(Dedup(rest), x.uid) {
          assert x in Dedup(machines);
          assert forall d :: d in Dedup(rest) ==> d in Dedup(machines);
        }
      }
      if |Dedup(machines)| == |machines| {
        forall j | 0 < j < |machines|
          ensures machines[j].uid != x.uid
        {
          assert machines[j] in rest;
        }
      }
    }
  }

  /** The search agrees with plain inclusion against every existing list exactly when the given UIDs
      are distinct: repeated arguments are what the length shortcut gets wrong. */
  lemma CorrectExactlyForDistinct(machines: seq<Machine>)
    ensures (forall existing :: Answer(existing, machines) <==> AllExist(existing, machines)) <==> Distinct(machines)
  {
    if Distinct(machines) {
      forall existing | AllExist(existing, machines)
        ensures Answer(existing, machines)
      {
        ShortcutIsSound(existing, machines);
      }
    } else {
      DedupShrinks(machines);
      var existing := Dedup(machines);
      assert AllExist(existing, machines) && !Answer(existing, machines);
    }
  }

  /** The smallest such argument: a machine given twice is missed in a list that has it. */
  lemma RepeatedArgumentMissed(m: Machine)
    ensures AllExist([m], [m, m]) && !Answer([m], [m, m])
  {
    assert m in [m];
  }
}

/**
 * Which machine set the scale-from-zero workload asks for, and which ones must stay at zero.
 * Machine set names are generated and taken to be unique.
 */
module ArchSelection {
  import opened Common
  import Architectures

  const AMD64 := "amd64"

  /** A worker machine set, and what looking up its architecture comes to. */
  datatype Worker = Worker(name: string, reading: Architectures.Reading)

  /** Its architecture, if that can be resolved. */
  function ArchOf(w: Worker): Option<string> {
    if w.reading.Arch? then Some(w.reading.arch) else None
  }

  datatype Params = Params(name: string, arch: string)

  // ---------- One set of parameters per architecture ----------

  /** Worker i is the first with its (resolvable) architecture. */
  predicate FirstOfItsKind(ws: seq<Worker>, i: nat) {
    i < |ws| && ArchOf(ws[i]).Some? && forall j :: 0 <= j < i ==> ArchOf(ws[j]) != ArchOf(ws[i])
  }

  /** The indices of those workers, in order. */
  function Firsts(ws: seq<Worker>, n: nat): seq<nat>
    requires n <= |ws|
  {
    if n == 0 then [] else Firsts(ws, n - 1) + if FirstOfItsKind(ws, n - 1) then [n - 1] else []
  }

  /** One entry for each of those workers, in order, with its architecture. */
  ghost predicate ListedFor(ws: seq<Worker>, list: seq<Params>) {
    && |list| == |Firsts(ws, |ws|)|
    && forall k :: 0 <= k < |list| ==> Firsts(ws, |ws|)[k] < |ws| && Some(list[k].arch) == ArchOf(ws[Firsts(ws, |ws|)[k]])
  }

  /** Looking up the architecture of some worker panics, and with it the whole function. */
  predicate SomePanics(ws: seq<Worker>, n: nat)
    requires n <= |ws|
  {
    exists i :: 0 <= i < n && ws[i].reading.IndexError?
  }

  /** `freshName(k)` is the generated name of the k-th set of parameters. None is a panic. */
  method BuildPerArch(ws: seq<Worker>, freshName: nat -> string) returns (built: Option<seq<Params>>)
    ensures built.None? <==> exists i :: 0 <= i < |ws| && ws[i].reading == Architectures.IndexError
    ensures built.Some? ==> ListedFor(ws, built.value)
    ensures built.Some? ==> forall k :: 0 <= k < |built.value| ==> built.value[k].name == freshName(k)
  {
    var list: seq<Params> := [];
    var seen: set<string> := {};
    for i := 0 to |ws|
      invariant !SomePanics(ws, i)
      invariant forall a :: a in seen <==> exists j :: 0 <= j < i && ArchOf(ws[j]) == Some(a)
      invariant |list| == |Firsts(ws, i)|
      invariant forall k :: 0 <= k < |list| ==>
                  && list[k].name == freshName(k)
                  && Firsts(ws, i)[k] < i && Some(list[k].arch) == ArchOf(ws[Firsts(ws, i)[k]])
    {
      if ws[i].reading.IndexError? {
        return None;
      }
      if ws[i].reading.NoArch? {
        continue;
      }
      var arch := ws[i].reading.arch;
      assert FirstOfItsKind(ws, i) <==> arch !in seen;
      if arch in seen {
        continue;
      }
      seen := seen + {arch};
      list := list + [Params(freshName(|list|), arch)];
    }
    return Some(list);
  }

  /** They are the first occurrences and no other ... */
  lemma {:induction false} FirstsExactly(ws: seq<Worker>, n: nat)
    requires n <= |ws|
    ensures forall i :: i in Firsts(ws, n) <==> 0 <= i < n && FirstOfItsKind(ws, i)
    ensures forall i :: i in Firsts(ws, n) <==>
              0 <= i < n && ws[i].reading.Arch? && forall j :: 0 <= j < i ==> ws[j].reading != ws[i].reading
  {
    if n > 0 {
      FirstsExactly(ws, n - 1);
    }
  }

  /** ... each once and in order. */
  lemma {:induction false} FirstsInOrder(ws: seq<Worker>, n: nat)
    requires n <= |ws|
    ensures forall k :: 0 <= k < |Firsts(ws, n)| ==> Firsts(ws, n)[k] < n
    ensures forall j, k :: 0 <= j < k < |Firsts(ws, n)| ==> Firsts(ws, n)[j] < Firsts(ws, n)[k]
  {
    if n > 0 {
      FirstsInOrder(ws, n - 1);
    }
  }

  /** The listed architectures are pairwise distinct. */
  lemma DistinctArchitectures(ws: seq<Worker>, list: seq<Params>)
    requires ListedFor(ws, list)
    ensures forall j, k :: 0 <= j < k < |list| ==> list[j].arch != list[k].arch
  {
    var firsts := Firsts(ws, |ws|);
    FirstsExactly(ws, |ws|);
    FirstsInOrder(ws, |ws|);
    forall j, k | 0 <= j < k < |list|
      ensures list[j].arch != list[k].arch
    {
      assert firsts[k] in firsts && firsts[j] < firsts[k];
    }
  }

  lemma Earliest(ws: seq<Worker>, i: nat) returns (m: nat)
    requires i < |ws| && ArchOf(ws[i]).Some?
    ensures m <= i && ArchOf(ws[m]) == ArchOf(ws[i]) && FirstOfItsKind(ws, m)
  {
    m := i;
    if j :| 0 <= j < i && ArchOf(ws[j]) == ArchOf(ws[i]) {
      m := Earliest(ws, j);
    }
  }

  /** The listed architectures are exactly those that some worker resolves to. */
  lemma AllArchitectures(ws: seq<Worker>, list: seq<Params>, a: string)
    requires ListedFor(ws, list)
    ensures (exists k :: 0 <= k < |list| && list[k].arch == a) <==> exists i :: 0 <= i < |ws| && ArchOf(ws[i]) == Some(a)
  {
    var firsts := Firsts(ws, |ws|);
    if i :| 0 <= i < |ws| && ArchOf(ws[i]) == Some(a) {
      var m := Earliest(ws, i);
      FirstsExactly(ws, |ws|);
      var k :| 0 <= k < |firsts| && firsts[k] == m;
      assert list[k].arch == a;
    }
    if k :| 0 <= k < |list| && list[k].arch == a {
      assert ArchOf(ws[firsts[k]]) == Some(a);
    }
  }

  /** There is nothing to build exactly when no worker's architecture can be resolved. */
  lemma NothingListedExactly(ws: seq<Worker>, list: seq<Params>)
    requires ListedFor(ws, list)
    ensures list == [] <==> forall i :: 0 <= i < |ws| ==> ArchOf(ws[i]).None?
  {
    if list != [] {
      AllArchitectures(ws, list, list[0].arch);
    } else if i :| 0 <= i < |ws| && ArchOf(ws[i]).Some? {
      AllArchitectures(ws, list, ArchOf(ws[i]).value);
    }
  }

  ghost predicate DistinctNames(list: seq<Params>) {
    forall i, j :: 0 <= i < j < |list| ==> list[i].name != list[j].name
  }

  // ---------- The selection loop ----------

  /** The loop's two variables: the architecture, and the position of the machine set chosen with it. */
  datatype Selection = Selection(arch: string, at: Option<nat>)

  /** What they hold after the first n parameters. */
  function Selected(list: seq<Params>, n: nat): Selection
    requires n <= |list|
  {
    if n == 0 then Selection("", None)
    else
      var before := Selected(list, n - 1);
      if list[n - 1].arch != AMD64 || before.arch == "" then Selection(list[n - 1].arch, Some(n - 1)) else before
  }

  /** The machine set chosen in the end, if there is any to choose from. */
  function Expected(list: seq<Params>): Option<Params> {
    var s := Selected(list, |list|);
    if s.at.Some? && s.at.value < |list| then Some(list[s.at.value]) else None
  }

  method DeployAndSelect(list: seq<Params>)
    returns (workloadArch: string, expected: Option<Params>, machineSets: seq<Params>)
    ensures workloadArch == Selected(list, |list|).arch && expected == Expected(list)
    ensures machineSets == list
  {
    workloadArch, expected, machineSets := "", None, [];
    ghost var at: Option<nat> := None;
    for i := 0 to |list|
      invariant machineSets == list[..i]
      invariant Selection(workloadArch, at) == Selected(list, i)
      invariant expected == if at.Some? && at.value < i then Some(list[at.value]) else None
      invariant at.Some? ==> at.value < i
    {
      machineSets := machineSets + [list[i]];
      var arch := list[i].arch;
      if arch != AMD64 || workloadArch == "" {
        workloadArch, expected, at := arch, Some(list[i]), Some(i);
      }
    }
  }

  function OtherThan(name: string): Params -> bool { (p: Params) => p.name != name }

  /** Only the selected set is left out of the check that sets stay at zero. */
  method Watched(machineSets: seq<Params>, expected: Params) returns (watched: seq<Params>)
    ensures watched == Filter(OtherThan(expected.name), machineSets)
  {
    watched := [];
    ghost var q := OtherThan(expected.name);
    for i := 0 to |machineSets|
      invariant watched == Filter(q, machineSets[..i])
    {
      FilterSnoc(q, machineSets[..i], machineSets[i]);
      assert machineSets[..i + 1] == machineSets[..i] + [machineSets[i]];
      if machineSets[i].name != expected.name {
        watched := watched + [machineSets[i]];
      }
    }
    assert machineSets[..|machineSets|] == machineSets;
  }

  /** With something to choose from, a set is chosen and the architecture is its own. */
  lemma {:induction false} SelectedIsListed(list: seq<Params>, n: nat)
    requires n <= |list|
    ensures var s := Selected(list, n);
            if n == 0 then s == Selection("", None)
            else s.at.Some? && s.at.value < n && list[s.at.value].arch == s.arch
  {
    if n > 0 {
      SelectedIsListed(list, n - 1);
    }
  }

  /** After a non-empty architecture was chosen, amd64 sets never displace it. */
  lemma {:induction false} Amd64Yields(list: seq<Params>, m: nat, n: nat)
    requires m <= n <= |list| && Selected(list, m).arch != ""
    requires forall k :: m <= k < n ==> list[k].arch == AMD64
    ensures Selected(list, n) == Selected(list, m)
    decreases n
  {
    if m < n {
      Amd64Yields(list, m, n - 1);
    }
  }

  /** Position l is the last that is not amd64. */
  predicate LastOther(list: seq<Params>, l: nat) {
    l < |list| && list[l].arch != "amd64" && forall k :: l < k < |list| ==> list[k].arch == "amd64"
  }

  /** After an empty architecture, whatever comes next is selected. */
  lemma EmptyYields(list: seq<Params>, l: nat)
    requires LastOther(list, l) && list[l].arch == "" && l + 1 < |list|
    ensures Selected(list, l + 2) == Selection(AMD64, Some(l + 1))
  {
    assert Selected(list, l + 1) == Selection("", Some(l));
  }

  /** The last non-amd64 set is the one selected, except when its architecture is the empty string
      and an amd64 set follows: then that one is. */
  lemma SelectedExactly(list: seq<Params>, l: nat)
    requires LastOther(list, l)
    ensures Selected(list, |list|) ==
              if list[l].arch == "" && l + 1 < |list| then Selection("amd64", Some(l + 1)) else Selection(list[l].arch, Some(l))
  {
    if list[l].arch == "" && l + 1 < |list| {
      EmptyYields(list, l);
      Amd64Yields(list, l + 2, |list|);
    } else if list[l].arch != "" {
      Amd64Yields(list, l + 1, |list|);
    }
  }

  /** A non-amd64 architecture is selected whenever there is one, if and only if the last such one is
      not both empty and followed by an amd64 set; for non-empty architectures, always. */
  lemma OtherArchPreferredExactly(list: seq<Params>, l: nat)
    requires LastOther(list, l)
    ensures Selected(list, |list|).arch != "amd64" <==> !(list[l].arch == "" && l + 1 < |list|)
    ensures list[l].arch != "" ==> Selected(list, |list|) == Selection(list[l].arch, Some(l))
  {
    SelectedExactly(list, l);
  }

  /** In an all-amd64 cluster the first set is selected. */
  lemma OnlyAmd64(list: seq<Params>)
    requires list != [] && forall k :: 0 <= k < |list| ==> list[k].arch == "amd64"
    ensures Selected(list, |list|) == Selection("amd64", Some(0))
  {
    assert Selected(list, 1) == Selection(AMD64, Some(0));
    Amd64Yields(list, 1, |list|);
  }

  lemma DropOne(list: seq<Params>, s: nat)
    requires s < |list| && DistinctNames(list)
    ensures Filter(OtherThan(list[s].name), list) == list[..s] + list[s + 1..]
  {
    forall i | 0 <= i < |list|
      ensures OtherThan(list[s].name)(list[i]) <==> i != s
    {
      assert i < s ==> list[i].name != list[s].name;
    }
    FilterDropOne(OtherThan(list[s].name), list, s);
  }

  /** From workers to the check: the selected architecture belongs to exactly one machine set, and the
      sets watched to stay at zero are exactly all the others, in order. */
  lemma ExactlyTheOthersWatched(ws: seq<Worker>, list: seq<Params>, s: nat)
    requires ListedFor(ws, list) && s < |list|
    requires DistinctNames(list)
    ensures Filter(OtherThan(list[s].name), list) == list[..s] + list[s + 1..]
    ensures forall k :: 0 <= k < |list| ==> (list[k].arch == list[s].arch <==> k == s)
  {
    DistinctArchitectures(ws, list);
    DropOne(list, s);
  }

  /** The last non-amd64 entry, if there is one. */
  lemma FindLastOther(list: seq<Params>, n: nat) returns (l: Option<nat>)
    requires n <= |list| && forall k :: n <= k < |list| ==> list[k].arch == AMD64
    ensures if l.Some? then LastOther(list, l.value) else forall k :: 0 <= k < |list| ==> list[k].arch == AMD64
    decreases n
  {
    if n == 0 {
      return None;
    }
    if list[n - 1].arch != AMD64 {
      return Some(n - 1);
    }
    l := FindLastOther(list, n - 1);
  }

  /** Some worker resolves to an architecture other than amd64. */
  ghost predicate HasOther(ws: seq<Worker>) {
    exists i :: 0 <= i < |ws| && ArchOf(ws[i]).Some? && ArchOf(ws[i]).value != "amd64"
  }

  ghost predicate NonEmptyArchs(list: seq<Params>) { forall k :: 0 <= k < |list| ==> list[k].arch != "" }

  lemma OtherAskedExactly(ws: seq<Worker>, list: seq<Params>)
    requires ListedFor(ws, list) && list != [] && NonEmptyArchs(list)
    ensures Selected(list, |list|).arch != AMD64 <==> HasOther(ws)
  {
    SelectedIsListed(list, |list|);
    AllArchitectures(ws, list, Selected(list, |list|).arch);
    var l := FindLastOther(list, |list|);
    if l.Some? {
      OtherArchPreferredExactly(list, l.value);
    } else {
      OnlyAmd64(list);
      if i :| 0 <= i < |ws| && ArchOf(ws[i]).Some? && ArchOf(ws[i]).value != AMD64 {
        AllArchitectures(ws, list, ArchOf(ws[i]).value);
      }
    }
  }

  /** The whole choice, for workers whose architectures are not empty strings: an architecture other
      than amd64 is asked for exactly when some worker has one; exactly one new machine set has the
      architecture asked for; and the sets that must stay at zero are exactly the others. */
  lemma ScaleFromZeroChoice(ws: seq<Worker>, list: seq<Params>, s: Selection)
    requires ListedFor(ws, list) && list != [] && NonEmptyArchs(list)
    requires DistinctNames(list)
    requires s == Selected(list, |list|)
    ensures s.arch != "amd64" <==> HasOther(ws)
    ensures s.at.Some? && s.at.value < |list|
    ensures forall k :: 0 <= k < |list| ==> (list[k].arch == s.arch <==> k == s.at.value)
    ensures Filter(OtherThan(list[s.at.value].name), list) == list[..s.at.value] + list[s.at.value + 1..]
  {
    SelectedIsListed(list, |list|);
    OtherAskedExactly(ws, list);
    ExactlyTheOthersWatched(ws, list, s.at.value);
  }
}

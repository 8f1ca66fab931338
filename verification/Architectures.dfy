/** How the architecture of a machine set is read: from its first node, or without nodes from the
    capacity annotation. */
module Architectures {
  import opened Common
  import opened Strings

  const ARCH_LABEL := "kubernetes.io/arch"

  /** `IndexError` is the run-time panic of indexing a split that has only one part. */
  datatype Reading = Arch(arch: string) | NoArch | IndexError

  /** The nodes of a machine set, by architecture; None when they cannot be listed. */
  type Nodes = Option<seq<string>>

  function ReadEntry(kv: string): Reading {
    var parts := Split(kv, '=');
    if |parts| > 1 then Arch(parts[1]) else IndexError
  }

  /** Entry i is the first to mention the label. */
  ghost predicate FirstMention(entries: seq<string>, i: nat) {
    i < |entries| && Contains(entries[i], ARCH_LABEL) && forall j :: 0 <= j < i ==> !Contains(entries[j], ARCH_LABEL)
  }

  ghost predicate ReadsAs(annotation: string, r: Reading) {
    var entries := Split(annotation, ',');
    && (forall i: nat :: FirstMention(entries, i) ==> r == ReadEntry(entries[i]))
    && (r == NoArch <==> forall i :: 0 <= i < |entries| ==> !Contains(entries[i], ARCH_LABEL))
  }

  /** The first entry that mentions the label has no equals sign. */
  ghost predicate FirstMentionLacksValue(annotation: string) {
    var entries := Split(annotation, ',');
    exists i: nat :: FirstMention(entries, i) && '=' !in entries[i]
  }

  /** Some entry is the first to mention the label, unless none does. */
  lemma FindFirstMention(entries: seq<string>, n: nat) returns (i: nat)
    requires n < |entries| && Contains(entries[n], ARCH_LABEL)
    ensures FirstMention(entries, i)
  {
    i := n;
    if j :| 0 <= j < n && Contains(entries[j], ARCH_LABEL) {
      i := FindFirstMention(entries, j);
    }
  }

  /** The index panics exactly when the first entry that mentions the label has no equals sign. */
  lemma IndexErrorExactly(annotation: string, r: Reading)
    requires ReadsAs(annotation, r)
    ensures r == IndexError <==> FirstMentionLacksValue(annotation)
  {
    var entries := Split(annotation, ',');
    if n :| 0 <= n < |entries| && Contains(entries[n], ARCH_LABEL) {
      var i := FindFirstMention(entries, n);
      SplitsExactly(entries[i], '=');
      assert forall j: nat :: FirstMention(entries, j) ==> j == i;
    }
  }

  /** The first node tells; without nodes, the first annotation entry mentioning the label does. */
  method GetArchitecture(nodes: Nodes, annotation: string) returns (r: Reading)
    ensures nodes.Some? && nodes.value != [] ==> r == Arch(nodes.value[0])
    ensures nodes.None? || nodes.value == [] ==> ReadsAs(annotation, r)
    ensures r == IndexError <==> (nodes.None? || nodes.value == []) && FirstMentionLacksValue(annotation)
  {
    if nodes.None? || |nodes.value| == 0 {
      var entries := Split(annotation, ',');
      for k := 0 to |entries|
        invariant forall j :: 0 <= j < k ==> !Contains(entries[j], ARCH_LABEL)
      {
        if Contains(entries[k], ARCH_LABEL) {
          assert forall i: nat :: FirstMention(entries, i) ==> i == k;
          r := ReadEntry(entries[k]);
          IndexErrorExactly(annotation, r);
          return;
        }
      }
      IndexErrorExactly(annotation, NoArch);
      return NoArch;
    }
    return Arch(nodes.value[0]);
  }

  /** With an equals sign, an entry reads as what is between the first one and the next or the end. */
  lemma EntryReads(a: string, b: string, c: string)
    requires '=' !in a && '=' !in b
    ensures ReadEntry(a + ['='] + b) == Arch(b)
    ensures ReadEntry(a + ['='] + (b + ['='] + c)) == Arch(b)
  {
    SplitFirst(a, '=', b);
    SplitWhole(b, '=');
    SplitFirst(a, '=', b + ['='] + c);
    SplitFirst(b, '=', c);
  }

  /** An annotation reads as its first entry with `kubernetes.io/arch` in it does. */
  lemma ReadsAsFirstMention(annotation: string, i: nat, r: Reading)
    requires i < |Split(annotation, ',')| && Contains(Split(annotation, ',')[i], "kubernetes.io/arch")
    requires forall j :: 0 <= j < i ==> !Contains(Split(annotation, ',')[j], "kubernetes.io/arch")
    ensures ReadsAs(annotation, r) <==> r == ReadEntry(Split(annotation, ',')[i])
  {
    var entries := Split(annotation, ',');
    assert forall j: nat :: FirstMention(entries, j) <==> j == i;
  }

  datatype Label = Label(key: string, value: string)

  predicate Clean(s: string) { ',' !in s && '=' !in s }

  function Render(l: Label): string { l.key + ['='] + l.value }

  function Annotation(labels: seq<Label>): string {
    Join(seq(|labels|, i requires 0 <= i < |labels| => Render(labels[i])), ',')
  }

  predicate Mentions(l: Label) { Contains(l.key, ARCH_LABEL) || Contains(l.value, ARCH_LABEL) }

  lemma RenderedEntry(l: Label)
    requires Clean(l.key) && Clean(l.value)
    ensures Contains(Render(l), ARCH_LABEL) <==> Mentions(l)
    ensures ReadEntry(Render(l)) == Arch(l.value)
    ensures ',' !in Render(l)
  {
    ContainsAcross(l.key, '=', l.value, ARCH_LABEL);
    SplitFirst(l.key, '=', l.value);
    SplitWhole(l.value, '=');
  }

  /** The entries of a rendered annotation are the rendered labels. */
  lemma EntriesOf(labels: seq<Label>)
    requires labels != [] && forall l :: l in labels ==> Clean(l.key) && Clean(l.value)
    ensures var entries := Split(Annotation(labels), ',');
            && |entries| == |labels|
            && forall i :: 0 <= i < |labels| ==>
                 && ReadEntry(entries[i]) == Arch(labels[i].value)
                 && (Contains(entries[i], ARCH_LABEL) <==> Mentions(labels[i]))
  {
    var entries := seq(|labels|, i requires 0 <= i < |labels| => Render(labels[i]));
    forall i | 0 <= i < |labels|
      ensures Contains(entries[i], ARCH_LABEL) <==> Mentions(labels[i])
      ensures ReadEntry(entries[i]) == Arch(labels[i].value) && ',' !in entries[i]
    {
      assert labels[i] in labels;
      RenderedEntry(labels[i]);
    }
    SplitJoin(entries, ',');
  }

  /** Reading undoes writing: for any list of labels whose keys and values contain no comma or equals
      sign, the annotation reads back as the value of the first label that mentions the architecture
      label, and never with an index error. If that mention is in the key, as the platform writes it,
      this is the architecture. */
  lemma ArchitectureReadsBack(labels: seq<Label>, n: nat, r: Reading)
    requires n < |labels| && forall l :: l in labels ==> Clean(l.key) && Clean(l.value)
    requires Mentions(labels[n]) && forall j :: 0 <= j < n ==> !Mentions(labels[j])
    ensures ReadsAs(Annotation(labels), r) <==> r == Arch(labels[n].value)
  {
    EntriesOf(labels);
    var entries := Split(Annotation(labels), ',');
    assert forall i: nat :: FirstMention(entries, i) <==> i == n;
    assert Contains(entries[n], ARCH_LABEL);
  }

  /** ... and as no architecture exactly when no label mentions it. */
  lemma NoArchitectureExactly(labels: seq<Label>)
    requires labels != [] && forall l :: l in labels ==> Clean(l.key) && Clean(l.value)
    ensures ReadsAs(Annotation(labels), NoArch) <==> forall l :: l in labels ==> !Mentions(l)
  {
    EntriesOf(labels);
    if ReadsAs(Annotation(labels), NoArch) {
      forall l | l in labels
        ensures !Mentions(l)
      {
        var i :| 0 <= i < |labels| && labels[i] == l;
      }
    } else {
      var entries := Split(Annotation(labels), ',');
      var i :| 0 <= i < |entries| && Contains(entries[i], ARCH_LABEL);
      assert labels[i] in labels && Mentions(labels[i]);
    }
  }

  lemma ArchitectureLabel(l: Label)
    requires l.key == ARCH_LABEL
    ensures Clean(l.key) && Mentions(l)
  {
    assert OccursAt(l.key, ARCH_LABEL, 0);
  }

  /** An annotation with nothing but an architecture reads as its value, even an empty one. */
  lemma LoneLabelReadsBack(l: Label, r: Reading)
    requires Clean(l.key) && Clean(l.value) && Mentions(l) && ReadsAs(Annotation([l]), r)
    ensures r == Arch(l.value)
  {
    ArchitectureReadsBack([l], 0, r);
  }
}

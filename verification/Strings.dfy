/** The string functions of the Go library that the models need. */
module Strings {
  predicate OccursAt(s: string, sub: string, i: nat) { i + |sub| <= |s| && s[i..i + |sub|] == sub }

  predicate Contains(s: string, sub: string) { exists i :: 0 <= i <= |s| && OccursAt(s, sub, i) }

  /** strings.Split with a one-character separator. */
  function Split(s: string, sep: char): (parts: seq<string>)
    ensures parts != []
  {
    if s == "" then [""]
    else
      var rest := Split(s[1..], sep);
      if s[0] == sep then [""] + rest else [[s[0]] + rest[0]] + rest[1..]
  }

  /** strings.Join with a one-character separator. */
  function Join(parts: seq<string>, sep: char): string {
    if parts == [] then ""
    else if |parts| == 1 then parts[0]
    else parts[0] + [sep] + Join(parts[1..], sep)
  }

  lemma {:induction false} SplitWhole(s: string, sep: char)
    requires sep !in s
    ensures Split(s, sep) == [s]
  {
    if s != "" {
      SplitWhole(s[1..], sep);
      assert [s[0]] + s[1..] == s;
    }
  }

  /** There is something to split exactly if the separator occurs. */
  lemma {:induction false} SplitsExactly(s: string, sep: char)
    ensures |Split(s, sep)| > 1 <==> sep in s
  {
    if s != "" {
      SplitsExactly(s[1..], sep);
      assert s == [s[0]] + s[1..];
    }
  }

  lemma {:induction false} SplitFirst(a: string, sep: char, b: string)
    requires sep !in a
    ensures Split(a + [sep] + b, sep) == [a] + Split(b, sep)
  {
    var s := a + [sep] + b;
    if a == "" {
      assert s[1..] == b;
    } else {
      assert s[1..] == a[1..] + [sep] + b;
      SplitFirst(a[1..], sep, b);
      assert [s[0]] + a[1..] == a;
    }
  }

  /** Splitting undoes joining for any non-empty list of parts without the separator. */
  lemma {:induction false} SplitJoin(parts: seq<string>, sep: char)
    requires parts != [] && forall p :: p in parts ==> sep !in p
    ensures Split(Join(parts, sep), sep) == parts
  {
    if |parts| == 1 {
      SplitWhole(parts[0], sep);
    } else {
      SplitJoin(parts[1..], sep);
      SplitFirst(parts[0], sep, Join(parts[1..], sep));
    }
  }

  lemma OccurrenceChar(s: string, sub: string, i: nat, j: nat)
    requires OccursAt(s, sub, i) && j < |sub|
    ensures s[i + j] == sub[j]
  {
    assert s[i..i + |sub|][j] == s[i + j];
  }

  lemma SliceOfSlice(s: string, lo: nat, hi: nat, i: nat, j: nat)
    requires i <= j <= hi - lo && hi <= |s|
    ensures s[lo..hi][i..j] == s[lo + i..lo + j]
  {
    forall k | 0 <= k < j - i
      ensures s[lo..hi][i..j][k] == s[lo + i..lo + j][k]
    {
      assert s[lo..hi][i..j][k] == s[lo..hi][i + k] == s[lo + (i + k)];
    }
  }

  /** Occurrences in a part are occurrences in the whole, shifted. */
  lemma OccursInPart(s: string, part: string, off: nat, sub: string, i: nat)
    requires off + |part| <= |s| && s[off..off + |part|] == part
    ensures i + |sub| <= |part| ==> (OccursAt(part, sub, i) <==> OccursAt(s, sub, off + i))
  {
    if i + |sub| <= |part| {
      SliceOfSlice(s, off, off + |part|, i, i + |sub|);
    }
  }

  /** An occurrence in a joined string lies in one of its parts. */
  lemma OccursOnOneSide(a: string, sep: char, b: string, sub: string, i: nat)
    requires sub != "" && sep !in sub && OccursAt(a + [sep] + b, sub, i)
    ensures OccursAt(a, sub, i) || (i > |a| && OccursAt(b, sub, i - |a| - 1))
  {
    var s, off := a + [sep] + b, |a| + 1;
    if i + |sub| <= |a| {
      assert s[0..0 + |a|] == a;
      OccursInPart(s, a, 0, sub, i);
    } else if i > |a| {
      assert s[off..off + |b|] == b;
      OccursInPart(s, b, off, sub, i - off);
    } else {
      OccurrenceChar(s, sub, i, |a| - i);
    }
  }

  lemma ContainsPart(s: string, part: string, off: nat, sub: string)
    requires off + |part| <= |s| && s[off..off + |part|] == part && Contains(part, sub)
    ensures Contains(s, sub)
  {
    var i :| 0 <= i <= |part| && OccursAt(part, sub, i);
    OccursInPart(s, part, off, sub, i);
    assert OccursAt(s, sub, off + i);
  }

  /** A pattern without the separator cannot straddle it. */
  lemma ContainsAcross(a: string, sep: char, b: string, sub: string)
    requires sub != "" && sep !in sub
    ensures Contains(a + [sep] + b, sub) <==> Contains(a, sub) || Contains(b, sub)
  {
    var s, off := a + [sep] + b, |a| + 1;
    if i :| 0 <= i <= |s| && OccursAt(s, sub, i) {
      OccursOnOneSide(a, sep, b, sub, i);
    }
    assert s[0..0 + |a|] == a && s[off..off + |b|] == b;
    if Contains(a, sub) {
      ContainsPart(s, a, 0, sub);
    } else if Contains(b, sub) {
      ContainsPart(s, b, off, sub);
    }
  }

  /** A character put before the first part is put before the whole. */
  lemma JoinHead(first: string, rest: seq<string>, sep: char, c: char)
    requires rest != [] && first == [c] + rest[0]
    ensures Join([first] + rest[1..], sep) == [c] + Join(rest, sep)
  {
    assert ([first] + rest[1..])[1..] == rest[1..];
  }

  /** Splitting cuts at every separator and nowhere else: the parts are free of it, and joining them gives
      the string back. */
  lemma {:induction false} JoinSplit(s: string, sep: char)
    ensures Join(Split(s, sep), sep) == s
    ensures forall i :: 0 <= i < |Split(s, sep)| ==> sep !in Split(s, sep)[i]
  {
    if s != "" {
      var rest := Split(s[1..], sep);
      JoinSplit(s[1..], sep);
      JoinHead([s[0]] + rest[0], rest, sep, s[0]);
      assert [s[0]] + s[1..] == s;
      assert ([""] + rest)[1..] == rest;
    }
  }

  /** A string contains another exactly if that is what lies between some beginning and some end of it. */
  lemma ContainsExactly(s: string, sub: string)
    ensures Contains(s, sub) <==> exists a, b: string :: s == a + sub + b
  {
    if i :| 0 <= i <= |s| && OccursAt(s, sub, i) {
      assert s == s[..i] + sub + s[i + |sub|..];
    }
    if a, b: string :| s == a + sub + b {
      assert s[|a|..|a| + |sub|] == sub;
      assert OccursAt(s, sub, |a|);
    }
  }
}

/** Small vocabulary shared by the models: optional values, 32-bit integers and order-preserving filters. */
module Common {
  datatype Option<+T> = None | Some(value: T)

  type int32 = x: int | -0x8000_0000 <= x < 0x8000_0000

  /** What 32-bit arithmetic makes of x. */
  function Wrap32(x: int): int32 {
    (x + 0x8000_0000) % 0x1_0000_0000 - 0x8000_0000
  }

  /** The elements of s that satisfy p, in order. */
  function Filter<T>(p: T -> bool, s: seq<T>): seq<T> {
    if s == [] then []
    else Filter(p, s[..|s| - 1]) + if p(s[|s| - 1]) then [s[|s| - 1]] else []
  }

  lemma FilterSnoc<T>(p: T -> bool, s: seq<T>, x: T)
    ensures Filter(p, s + [x]) == Filter(p, s) + if p(x) then [x] else []
  {
    assert (s + [x])[..|s|] == s;
  }

  lemma {:induction false} FilterConcat<T>(p: T -> bool, a: seq<T>, b: seq<T>)
    ensures Filter(p, a + b) == Filter(p, a) + Filter(p, b)
  {
    if b == [] {
      assert a + b == a;
    } else {
      var init, x := b[..|b| - 1], b[|b| - 1];
      assert a + b == (a + init) + [x];
      FilterSnoc(p, a + init, x);
      FilterConcat(p, a, init);
    }
  }

  /** Filtering keeps exactly the elements that pass, each no more often than it occurs. */
  lemma {:induction false} FilterMembers<T(!new)>(p: T -> bool, s: seq<T>)
    ensures forall x {:trigger x in Filter(p, s)} {:trigger x in s} :: x in Filter(p, s) <==> x in s && p(x)
    ensures multiset(Filter(p, s)) <= multiset(s)
    ensures |Filter(p, s)| <= |s|
  {
    if s != [] {
      FilterMembers(p, s[..|s| - 1]);
      assert s == s[..|s| - 1] + [s[|s| - 1]];
    }
  }

  /** The positions that pass. */
  ghost function Positions<T>(p: T -> bool, s: seq<T>): set<int> { set i | 0 <= i < |s| && p(s[i]) }

  lemma PositionsSnoc<T>(p: T -> bool, s: seq<T>, x: T)
    ensures Positions(p, s + [x]) == Positions(p, s) + if p(x) then {|s|} else {}
  {
    assert forall i :: 0 <= i < |s| ==> (s + [x])[i] == s[i];
  }

  /** The length of a filter is the number of positions that pass. */
  lemma {:induction false} FilterCount<T>(p: T -> bool, s: seq<T>)
    ensures |Filter(p, s)| == |Positions(p, s)|
  {
    if s != [] {
      var init, x := s[..|s| - 1], s[|s| - 1];
      assert s == init + [x];
      FilterCount(p, init);
      PositionsSnoc(p, init, x);
    }
  }

  /** A filter that drops nothing by length dropped nothing at all. */
  lemma {:induction false} FilterFull<T(!new)>(p: T -> bool, s: seq<T>)
    ensures |Filter(p, s)| == |s| <==> forall x :: x in s ==> p(x)
    ensures |Filter(p, s)| == |s| ==> Filter(p, s) == s
  {
    if s != [] {
      var init, x := s[..|s| - 1], s[|s| - 1];
      assert s == init + [x];
      FilterFull(p, init);
      FilterMembers(p, init);
      assert x in s;
      assert forall y :: y in s <==> y in init || y == x;
    }
  }

  /** A filter is empty exactly when nothing passes. */
  lemma FilterEmpty<T(!new)>(p: T -> bool, s: seq<T>)
    ensures Filter(p, s) == [] <==> forall x :: x in s ==> !p(x)
  {
    FilterMembers(p, s);
    if Filter(p, s) != [] {
      var x := Filter(p, s)[0];
      assert x in Filter(p, s);
    }
  }

  lemma FilterKeepsAll<T(!new)>(p: T -> bool, s: seq<T>)
    requires forall i :: 0 <= i < |s| ==> p(s[i])
    ensures Filter(p, s) == s
  {
    FilterFull(p, s);
  }

  /** A filter that rejects exactly one position removes exactly that one. */
  lemma {:induction false} FilterDropOne<T(!new)>(p: T -> bool, s: seq<T>, k: nat)
    requires k < |s| && forall i :: 0 <= i < |s| ==> (p(s[i]) <==> i != k)
    ensures Filter(p, s) == s[..k] + s[k + 1..]
  {
    var n := |s| - 1;
    if k == n {
      FilterKeepsAll(p, s[..n]);
    } else {
      FilterDropOne(p, s[..n], k);
      assert s[k + 1..] == s[..n][k + 1..] + [s[n]];
      assert s[..n][..k] == s[..k];
    }
  }

  lemma FilterTakeOut<T>(p: T -> bool, a: seq<T>, x: T, b: seq<T>)
    ensures |Filter(p, a + [x] + b)| == |Filter(p, a + b)| + if p(x) then 1 else 0
  {
    FilterConcat(p, a, b);
    FilterConcat(p, a + [x], b);
    FilterSnoc(p, a, x);
  }

  lemma TakeOut<T>(s: seq<T>, x: T) returns (a: seq<T>, b: seq<T>)
    requires x in multiset(s)
    ensures s == a + [x] + b
    ensures multiset(a + b) == multiset(s) - multiset{x}
  {
    var k :| 0 <= k < |s| && s[k] == x;
    a, b := s[..k], s[k + 1..];
    assert s == a + [x] + b;
  }

  /** How many elements pass depends only on the elements, not on their order. */
  lemma {:induction false} FilterCountByMultiset<T>(p: T -> bool, s: seq<T>, s': seq<T>)
    requires multiset(s) == multiset(s')
    ensures |Filter(p, s)| == |Filter(p, s')|
  {
    if s == [] {
      assert |s'| == |multiset(s')| == 0;
    } else {
      var init, x := s[..|s| - 1], s[|s| - 1];
      assert s == init + [x];
      assert multiset(init) == multiset(s) - multiset{x};
      var a, b := TakeOut(s', x);
      FilterCountByMultiset(p, init, a + b);
      FilterTakeOut(p, a, x, b);
    }
  }

  lemma SliceMembers<T>(s: seq<T>, lo: nat, hi: nat)
    requires lo <= hi <= |s|
    ensures multiset(s[lo..hi]) <= multiset(s)
    ensures forall x :: x in s[lo..hi] ==> x in s
  {
    assert s == s[..lo] + s[lo..hi] + s[hi..];
    assert forall i :: lo <= i < hi ==> s[lo..hi][i - lo] == s[i];
  }

  lemma FilterOfSlice<T(!new)>(p: T -> bool, s: seq<T>, lo: nat, hi: nat)
    requires lo <= hi <= |s|
    ensures multiset(Filter(p, s[lo..hi])) <= multiset(s)
    ensures forall x :: x in Filter(p, s[lo..hi]) ==> x in s && p(x)
  {
    var run := s[lo..hi];
    SliceMembers(s, lo, hi);
    FilterMembers(p, run);
  }
}

/** Facts about sequences of block ids that the layers above share. */
module Sequences {

  ghost predicate Distinct<T>(s: seq<T>) {
    forall i, j :: 0 <= i < j < |s| ==> s[i] != s[j]
  }

  ghost predicate Sorted(s: seq<nat>) {
    forall i, j :: 0 <= i < j < |s| ==> s[i] <= s[j]
  }

  ghost function Elements<T>(s: seq<T>): set<T> {
    set x | x in s
  }

  function Zeros(n: nat): seq<nat> {
    seq(n, _ => 0)
  }

  /** The first `n` values of the iterator `s.chain(repeat(0))`. */
  function Pad(s: seq<nat>, n: nat): (r: seq<nat>)
    ensures |r| == n
    ensures forall i :: 0 <= i < n ==> r[i] == if i < |s| then s[i] else 0
  {
    seq(n, i requires 0 <= i < n => if i < |s| then s[i] else 0)
  }

  lemma SortedCons(x: nat, s: seq<nat>)
    requires Sorted(s) && forall y :: y in s ==> x <= y
    ensures Sorted([x] + s)
  {
    var t := [x] + s;
    forall i, j | 0 <= i < j < |t|
      ensures t[i] <= t[j]
    {
      assert t[j] == s[j - 1] && s[j - 1] in s;
      assert i > 0 ==> t[i] == s[i - 1];
    }
  }

  lemma SameMembers<T>(a: seq<T>, m: multiset<T>)
    requires multiset(a) == m
    ensures forall y :: y in a <==> y in m
  {
    assert forall y :: y in a <==> y in multiset(a);
  }

  lemma HeadSplit<T>(s: seq<T>)
    requires s != []
    ensures multiset(s) == multiset(s[1..]) + multiset{s[0]}
    ensures forall y :: y in s <==> y == s[0] || y in s[1..]
  {
    assert s == [s[0]] + s[1..];
  }

  function Insert(x: nat, s: seq<nat>): (r: seq<nat>)
    requires Sorted(s)
    ensures Sorted(r)
    ensures multiset(r) == multiset(s) + multiset{x}
  {
    if s == [] || x <= s[0] then
      SortedCons(x, s);
      [x] + s
    else
      HeadSplit(s);
      var rest := Insert(x, s[1..]);
      SameMembers(rest, multiset(s[1..]) + multiset{x});
      SortedCons(s[0], rest);
      [s[0]] + rest
  }

  /** Vec::sort */
  function Sort(s: seq<nat>): (r: seq<nat>)
    ensures Sorted(r)
    ensures multiset(r) == multiset(s)
  {
    if s == [] then [] else
      assert s == [s[0]] + s[1..];
      Insert(s[0], Sort(s[1..]))
  }

  lemma SortedHeads(a: seq<nat>, b: seq<nat>)
    requires Sorted(a) && Sorted(b) && multiset(a) == multiset(b) && a != [] && b != []
    ensures a[0] == b[0]
  {
    SameMembers(a, multiset(b));
    SameMembers(b, multiset(a));
    assert a[0] in b && b[0] in a;
  }

  lemma SortedTail(s: seq<nat>)
    requires Sorted(s) && s != []
    ensures Sorted(s[1..])
    ensures multiset(s[1..]) == multiset(s) - multiset{s[0]}
  {
    HeadSplit(s);
  }

  /** A sorted sequence is determined by its multiset of elements. */
  lemma {:induction false} SortedIsUnique(a: seq<nat>, b: seq<nat>)
    requires Sorted(a) && Sorted(b) && multiset(a) == multiset(b)
    ensures a == b
  {
    hide Sorted;
    assert |a| == |multiset(a)| == |multiset(b)| == |b|;
    if a == [] {
    } else {
      SortedHeads(a, b);
      SortedTail(a);
      SortedTail(b);
      SortedIsUnique(a[1..], b[1..]);
      assert a == [a[0]] + a[1..] && b == [b[0]] + b[1..];
    }
  }

  /** `Distinct` is a property of the multiset, so it survives reordering. */
  lemma {:induction false} DistinctIsMultiplicity<T>(s: seq<T>)
    ensures Distinct(s) <==> forall x :: multiset(s)[x] <= 1
  {
    if s == [] {
    } else {
      assert s == s[..|s| - 1] + [s[|s| - 1]];
      var t, y := s[..|s| - 1], s[|s| - 1];
      DistinctIsMultiplicity(t);
      assert forall x :: multiset(s)[x] == multiset(t)[x] + (if x == y then 1 else 0);
      assert y in t <==> multiset(t)[y] >= 1;
      if Distinct(s) {
        assert forall i :: 0 <= i < |t| ==> t[i] == s[i] && s[i] != s[|s| - 1];
      } else if Distinct(t) {
        assert y in t;
      }
    }
  }

  lemma DistinctPermutation<T>(a: seq<T>, b: seq<T>)
    requires Distinct(a) && multiset(a) == multiset(b)
    ensures Distinct(b)
  {
    DistinctIsMultiplicity(a);
    DistinctIsMultiplicity(b);
  }

  lemma ElementsOfMultiset<T>(a: seq<T>, b: seq<T>)
    requires multiset(a) == multiset(b)
    ensures Elements(a) == Elements(b)
    ensures |a| == |b|
  {
    assert forall x :: x in a <==> x in multiset(a);
    assert forall x :: x in b <==> x in multiset(b);
    assert |multiset(a)| == |a| && |multiset(b)| == |b|;
  }

  lemma DistinctConcat<T>(a: seq<T>, b: seq<T>)
    ensures Distinct(a + b) <==> Distinct(a) && Distinct(b) && Elements(a) !! Elements(b)
  {
    DistinctIsMultiplicity(a);
    DistinctIsMultiplicity(b);
    DistinctIsMultiplicity(a + b);
    assert forall x :: multiset(a + b)[x] == multiset(a)[x] + multiset(b)[x];
    assert forall x :: x in Elements(a) <==> multiset(a)[x] >= 1;
    assert forall x :: x in Elements(b) <==> multiset(b)[x] >= 1;
  }

  /** Part of a permutation of distinct elements. */
  lemma DistinctPart<T>(all: seq<T>, part: seq<T>, rest: seq<T>)
    requires Distinct(all) && multiset(part) + multiset(rest) == multiset(all)
    ensures Distinct(part) && Distinct(rest)
    ensures Elements(part) + Elements(rest) == Elements(all) && Elements(part) !! Elements(rest)
    ensures |part| + |rest| == |all|
  {
    assert multiset(part + rest) == multiset(all);
    DistinctPermutation(all, part + rest);
    DistinctConcat(part, rest);
    ElementsOfMultiset(part + rest, all);
    assert Elements(part + rest) == Elements(part) + Elements(rest);
  }
}

/** Arrays.sort(int[]): ascending order, in place. The model sorts by insertion;
    any sorting algorithm gives the same array, since a sorted permutation of a
    list is unique (SortedPermutationUnique). */
module IntSort {

  predicate Sorted(s: seq<int>)
  {
    forall i, j :: 0 <= i < j < |s| ==> s[i] <= s[j]
  }

  /** `x` placed into the sorted list `p`, after every element not above it. */
  function Insert(p: seq<int>, x: int): seq<int>
  {
    if p == [] then [x]
    else if p[|p| - 1] <= x then p + [x]
    else Insert(p[..|p| - 1], x) + [p[|p| - 1]]
  }

  /** The elements of `s` in ascending order. */
  function SortSeq(s: seq<int>): seq<int>
  {
    if s == [] then [] else Insert(SortSeq(s[..|s| - 1]), s[|s| - 1])
  }

  lemma {:induction false} InsertSpec(p: seq<int>, x: int)
    requires Sorted(p)
    ensures Sorted(Insert(p, x))
    ensures multiset(Insert(p, x)) == multiset(p) + multiset{x}
    ensures |Insert(p, x)| == |p| + 1
  {
    if p == [] {
    } else if p[|p| - 1] <= x {
      SortedSnoc(p, x);
    } else {
      var init := p[..|p| - 1];
      var last := p[|p| - 1];
      InsertSpec(init, x);
      var q := Insert(init, x);
      assert p == init + [last];
      forall k | 0 <= k < |q| ensures q[k] <= last {
        assert q[k] in multiset(q);
        if q[k] != x {
          assert q[k] in multiset(init);
          var m :| 0 <= m < |init| && init[m] == q[k];
          assert p[m] <= p[|p| - 1];
        }
      }
      SortedSnoc(q, last);
    }
  }

  lemma SortedSnoc(q: seq<int>, y: int)
    requires Sorted(q) && (forall k :: 0 <= k < |q| ==> q[k] <= y)
    ensures Sorted(q + [y])
  {
  }

  /** The sorted list is ordered and holds exactly the elements it was given. */
  lemma {:induction false} SortSeqSpec(s: seq<int>)
    ensures Sorted(SortSeq(s))
    ensures multiset(SortSeq(s)) == multiset(s)
    ensures |SortSeq(s)| == |s|
  {
    if s != [] {
      var init := s[..|s| - 1];
      SortSeqSpec(init);
      InsertSpec(SortSeq(init), s[|s| - 1]);
      assert s == init + [s[|s| - 1]];
    }
  }

  /** Two sorted lists with the same elements are the same list. */
  lemma {:induction false} SortedPermutationUnique(a: seq<int>, b: seq<int>)
    requires Sorted(a) && Sorted(b) && multiset(a) == multiset(b)
    ensures a == b
    decreases |a|
  {
    assert |a| == |multiset(a)| == |b|;
    if a != [] {
      SortedHeads(a, b);
      TailMultiset(a);
      TailMultiset(b);
      SortedPermutationUnique(a[1..], b[1..]);
      assert a == [a[0]] + a[1..] && b == [b[0]] + b[1..];
    }
  }

  /** Two non-empty sorted lists with the same elements start alike. */
  lemma SortedHeads(a: seq<int>, b: seq<int>)
    requires Sorted(a) && Sorted(b) && multiset(a) == multiset(b) && a != [] && b != []
    ensures a[0] == b[0]
  {
    assert a[0] in multiset(b) && b[0] in multiset(a);
    var i :| 0 <= i < |b| && b[i] == a[0];
    var j :| 0 <= j < |a| && a[j] == b[0];
    assert a[0] <= a[j] && b[0] <= b[i];
  }

  /** The rest of a non-empty list holds its elements less the first. */
  lemma TailMultiset<T>(a: seq<T>)
    requires a != []
    ensures multiset(a[1..]) == multiset(a) - multiset{a[0]}
  {
    assert a == [a[0]] + a[1..];
  }

  /** Where insertion puts `x`: after the elements up to `j`, when those after
      are all above it. */
  lemma {:induction false} InsertAt(p: seq<int>, x: int, j: nat)
    requires j <= |p| && (j == 0 || p[j - 1] <= x)
    requires forall k :: j <= k < |p| ==> p[k] > x
    ensures Insert(p, x) == p[..j] + [x] + p[j..]
    decreases |p|
  {
    if j < |p| {
      var init := p[..|p| - 1];
      InsertAt(init, x, j);
      assert init[..j] == p[..j] && init[j..] + [p[|p| - 1]] == p[j..];
    } else if p != [] {
      assert p[..j] == p && p[j..] == [];
    }
  }

  /** The in-place sort: the array ends up holding its old elements in
      ascending order. */
  method Sort(a: array<int>)
    modifies a
    ensures a[..] == SortSeq(old(a[..]))
  {
    ghost var s := a[..];
    for i := 0 to a.Length
      invariant a[..i] == SortSeq(s[..i]) && a[i..] == s[i..]
    {
      SortSeqSpec(s[..i]);
      InsertInto(a, i, SortSeq(s[..i]));
      assert s[..i + 1][..i] == s[..i];
    }
    assert s[..a.Length] == s;
  }

  /** One step of the sort: a[i] moves down past the larger elements of the
      sorted prefix, which each shift up by one. */
  method InsertInto(a: array<int>, i: nat, ghost p: seq<int>)
    requires i < a.Length && a[..i] == p && Sorted(p)
    modifies a
    ensures a[..i + 1] == Insert(p, old(a[i])) && a[i + 1..] == old(a[i + 1..])
  {
    var x := a[i];
    var j := i;
    while j > 0 && a[j - 1] > x
      invariant 0 <= j <= i
      invariant forall k :: 0 <= k < j ==> a[k] == p[k]
      invariant forall k :: j < k <= i ==> a[k] == p[k - 1]
      invariant forall k :: i < k < a.Length ==> a[k] == old(a[k])
      invariant forall k :: j <= k < i ==> p[k] > x
    {
      a[j] := a[j - 1];
      j := j - 1;
    }
    a[j] := x;
    InsertAt(p, x, j);
    assert a[..i + 1] == p[..j] + [x] + p[j..];
  }

  // The int[]... argument lists that catAndSort and union take, read in order.

  /** The lists in order, one after another. */
  function Concat(srcs: seq<seq<int>>): seq<int>
  {
    if srcs == [] then [] else Concat(srcs[..|srcs| - 1]) + srcs[|srcs| - 1]
  }

  /** Total of the lengths. */
  function SumLengths(srcs: seq<seq<int>>): nat
  {
    if srcs == [] then 0 else SumLengths(srcs[..|srcs| - 1]) + |srcs[|srcs| - 1]|
  }

  lemma {:induction false} ConcatLength(srcs: seq<seq<int>>)
    ensures |Concat(srcs)| == SumLengths(srcs)
  {
    if srcs != [] {
      ConcatLength(srcs[..|srcs| - 1]);
    }
  }

  /** A prefix of the lists concatenates to no more than all of them. */
  lemma {:induction false} ConcatPrefixLength(srcs: seq<seq<int>>, k: nat)
    requires k <= |srcs|
    ensures |Concat(srcs[..k])| <= |Concat(srcs)|
    decreases |srcs|
  {
    if k < |srcs| {
      var init := srcs[..|srcs| - 1];
      ConcatPrefixLength(init, k);
      assert init[..k] == srcs[..k];
    } else {
      assert srcs[..k] == srcs;
    }
  }

  lemma ConcatTwo(a: seq<int>, b: seq<int>)
    ensures Concat([a, b]) == a + b
  {
    assert [a, b][..1] == [a] && [a][..0] == [];
    assert Concat([a]) == Concat([]) + a == a;
  }

  lemma ConcatThree(a: seq<int>, b: seq<int>, c: seq<int>)
    ensures Concat([a, b, c]) == a + b + c
  {
    assert [a, b, c][..2] == [a, b];
    ConcatTwo(a, b);
  }
}

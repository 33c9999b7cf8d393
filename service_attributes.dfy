/** The attribute tags a WADO-RS metadata response returns: the union of the
    patient, study, series and instance attributes, each tag once, in ascending
    order. */
module ServiceAttributes {
  import opened IntSort

  /** The four entity tag lists. They are dcm4che Tag constants, whose numeric
      values are not part of this model. */
  datatype EntityAttributes = EntityAttributes(patient: seq<int>, study: seq<int>, series: seq<int>, instance: seq<int>)

  predicate StrictlyAscending(s: seq<int>)
  {
    forall i, j :: 0 <= i < j < |s| ==> s[i] < s[j]
  }

  /** TreeSet.add on the set's ascending contents: `x` goes to its place unless
      it is already there. */
  function TreeAdd(c: seq<int>, x: int): seq<int>
  {
    if c == [] then [x]
    else if c[|c| - 1] < x then c + [x]
    else if c[|c| - 1] == x then c
    else TreeAdd(c[..|c| - 1], x) + [c[|c| - 1]]
  }

  /** The TreeSet that adding `xs` one by one to an empty one gives. */
  function TreeOf(xs: seq<int>): seq<int>
  {
    if xs == [] then [] else TreeAdd(TreeOf(xs[..|xs| - 1]), xs[|xs| - 1])
  }

  /** What union returns: the tree of all the lists read in order. */
  function UnionOf(attrs: seq<seq<int>>): seq<int>
  {
    TreeOf(Concat(attrs))
  }

  /** WADO_RS: the union of the patient, study, series and instance tags. */
  function WadoRs(e: EntityAttributes): (r: seq<int>)
    ensures |r| <= |e.patient| + |e.study| + |e.series| + |e.instance|
  {
    var attrs := [e.patient, e.study, e.series, e.instance];
    UnionSpec(attrs);
    assert SumLengths(attrs) == |e.patient| + |e.study| + |e.series| + |e.instance| by {
      var a3, a2, a1 := attrs[..3], attrs[..3][..2], attrs[..3][..2][..1];
      assert SumLengths(a1) == |e.patient| by { assert a1[..0] == []; }
      assert SumLengths(a2) == SumLengths(a1) + |e.study|;
      assert SumLengths(a3) == SumLengths(a2) + |e.series|;
    }
    UnionOf(attrs)
  }

  /** union: every tag of every list added to a TreeSet, then the set copied
      into a new array of its size in iteration (ascending) order. */
  method Union(attrs: seq<seq<int>>) returns (a: array<int>)
    ensures a[..] == UnionOf(attrs)
  {
    var c: seq<int> := [];
    for k := 0 to |attrs|
      invariant c == TreeOf(Concat(attrs[..k]))
    {
      c := AddEach(c, Concat(attrs[..k]), attrs[k]);
      assert attrs[..k + 1][..k] == attrs[..k];
    }
    assert attrs[..|attrs|] == attrs;
    a := new int[|c|];
    var j := 0;
    while j < |c|
      invariant 0 <= j <= |c| && a[..j] == c[..j]
    {
      a[j] := c[j];
      j := j + 1;
    }
  }

  /** The inner loop of union: each tag of one list added to the set in turn. */
  method AddEach(c: seq<int>, ghost xs: seq<int>, attr: seq<int>) returns (r: seq<int>)
    requires c == TreeOf(xs)
    ensures r == TreeOf(xs + attr)
  {
    r := c;
    assert xs + attr[..0] == xs;
    for m := 0 to |attr|
      invariant r == TreeOf(xs + attr[..m])
    {
      TreeOfSnoc(xs + attr[..m], attr[m]);
      assert xs + attr[..m + 1] == xs + attr[..m] + [attr[m]];
      r := TreeAdd(r, attr[m]);
    }
    assert attr[..|attr|] == attr;
  }

  lemma TreeOfSnoc(xs: seq<int>, x: int)
    ensures TreeOf(xs + [x]) == TreeAdd(TreeOf(xs), x)
  {
    assert (xs + [x])[..|xs|] == xs;
  }

  /** Adding to a TreeSet adds `x` and nothing else. */
  lemma {:induction false} TreeAddElements(c: seq<int>, x: int)
    ensures forall y :: y in TreeAdd(c, x) <==> y in c || y == x
  {
    if c != [] && c[|c| - 1] >= x && c[|c| - 1] != x {
      var init := c[..|c| - 1];
      TreeAddElements(init, x);
      assert c == init + [c[|c| - 1]];
    }
  }

  /** Adding to a TreeSet keeps it strictly ascending, grows it by at most one,
      and changes nothing when `x` is already there. */
  lemma TreeAddSpec(c: seq<int>, x: int)
    requires StrictlyAscending(c)
    ensures StrictlyAscending(TreeAdd(c, x))
    ensures forall y :: y in TreeAdd(c, x) <==> y in c || y == x
    ensures |TreeAdd(c, x)| <= |c| + 1
    ensures x in c ==> TreeAdd(c, x) == c
  {
    TreeAddElements(c, x);
    TreeAddAscending(c, x);
    TreeAddLength(c, x);
    if x in c {
      TreeAddPresent(c, x);
    }
  }

  lemma {:induction false} TreeAddAscending(c: seq<int>, x: int)
    requires StrictlyAscending(c)
    ensures StrictlyAscending(TreeAdd(c, x))
  {
    if c == [] {
    } else if c[|c| - 1] < x {
      forall k | 0 <= k < |c| ensures c[k] < x {
        assert c[k] <= c[|c| - 1];
      }
      StrictSnoc(c, x);
    } else if c[|c| - 1] != x {
      var init, last := c[..|c| - 1], c[|c| - 1];
      assert StrictlyAscending(init);
      TreeAddAscending(init, x);
      TreeAddElements(init, x);
      var q := TreeAdd(init, x);
      forall k | 0 <= k < |q| ensures q[k] < last {
        assert q[k] in q;
        if q[k] != x {
          var m :| 0 <= m < |init| && init[m] == q[k];
          assert c[m] < c[|c| - 1];
        }
      }
      StrictSnoc(q, last);
    }
  }

  lemma {:induction false} TreeAddLength(c: seq<int>, x: int)
    ensures |TreeAdd(c, x)| <= |c| + 1
  {
    if c != [] && c[|c| - 1] > x {
      TreeAddLength(c[..|c| - 1], x);
    }
  }

  lemma {:induction false} TreeAddPresent(c: seq<int>, x: int)
    requires StrictlyAscending(c) && x in c
    ensures TreeAdd(c, x) == c
  {
    var last := c[|c| - 1];
    if last != x {
      var k :| 0 <= k < |c| && c[k] == x;
      assert k < |c| - 1 && x < last;
      var init := c[..|c| - 1];
      assert init[k] == x;
      TreeAddPresent(init, x);
      assert c == init + [last];
    }
  }

  lemma StrictSnoc(q: seq<int>, y: int)
    requires StrictlyAscending(q) && (forall k :: 0 <= k < |q| ==> q[k] < y)
    ensures StrictlyAscending(q + [y])
  {
  }

  /** The TreeSet built from a list is strictly ascending, holds exactly the
      list's elements, and is no longer than the list. */
  lemma {:induction false} TreeOfSpec(xs: seq<int>)
    ensures StrictlyAscending(TreeOf(xs))
    ensures forall y :: y in TreeOf(xs) <==> y in xs
    ensures |TreeOf(xs)| <= |xs|
  {
    if xs != [] {
      var init := xs[..|xs| - 1];
      TreeOfSpec(init);
      TreeAddSpec(TreeOf(init), xs[|xs| - 1]);
      assert xs == init + [xs[|xs| - 1]];
    }
  }

  /** An element of the concatenation is an element of one of the lists. */
  lemma InConcat(attrs: seq<seq<int>>, y: int)
    ensures y in Concat(attrs) <==> exists k :: 0 <= k < |attrs| && y in attrs[k]
  {
    if y in Concat(attrs) {
      var k := ConcatSource(attrs, y);
    }
    if exists k :: 0 <= k < |attrs| && y in attrs[k] {
      var k :| 0 <= k < |attrs| && y in attrs[k];
      ConcatHolds(attrs, k, y);
    }
  }

  /** The list an element of the concatenation comes from. */
  lemma {:induction false} ConcatSource(attrs: seq<seq<int>>, y: int) returns (k: nat)
    requires y in Concat(attrs)
    ensures k < |attrs| && y in attrs[k]
  {
    var init := attrs[..|attrs| - 1];
    if y in Concat(init) {
      k := ConcatSource(init, y);
      assert attrs[k] == init[k];
    } else {
      k := |attrs| - 1;
    }
  }

  /** Every element of every list is in the concatenation. */
  lemma {:induction false} ConcatHolds(attrs: seq<seq<int>>, k: nat, y: int)
    requires k < |attrs| && y in attrs[k]
    ensures y in Concat(attrs)
  {
    var init := attrs[..|attrs| - 1];
    if k < |init| {
      assert init[k] == attrs[k];
      ConcatHolds(init, k, y);
    }
  }

  /** union's result is strictly ascending, holds exactly the tags found in
      some list, and is no longer than the lists together. */
  lemma UnionSpec(attrs: seq<seq<int>>)
    ensures StrictlyAscending(UnionOf(attrs))
    ensures forall y :: y in UnionOf(attrs) <==> exists k :: 0 <= k < |attrs| && y in attrs[k]
    ensures |UnionOf(attrs)| <= SumLengths(attrs)
  {
    TreeOfSpec(Concat(attrs));
    ConcatLength(attrs);
    forall y ensures y in UnionOf(attrs) <==> exists k :: 0 <= k < |attrs| && y in attrs[k] {
      InConcat(attrs, y);
    }
  }

  /** WADO_RS lists, in ascending order and once each, the tags that are
      patient, study, series or instance attributes. */
  lemma WadoRsSpec(e: EntityAttributes)
    ensures StrictlyAscending(WadoRs(e))
    ensures forall y :: y in WadoRs(e) <==> y in e.patient || y in e.study || y in e.series || y in e.instance
  {
    var attrs := [e.patient, e.study, e.series, e.instance];
    UnionSpec(attrs);
    forall y ensures (exists k :: 0 <= k < |attrs| && y in attrs[k]) <==>
      y in e.patient || y in e.study || y in e.series || y in e.instance
    {
      if y in e.patient { assert y in attrs[0]; }
      if y in e.study { assert y in attrs[1]; }
      if y in e.series { assert y in attrs[2]; }
      if y in e.instance { assert y in attrs[3]; }
    }
  }

  /** A tag repeated across the lists (SpecificCharacterSet is in all four)
      appears once in the union. */
  lemma UnionNoDuplicates(attrs: seq<seq<int>>, i: nat, j: nat)
    requires i < j < |UnionOf(attrs)|
    ensures UnionOf(attrs)[i] != UnionOf(attrs)[j]
  {
    TreeOfSpec(Concat(attrs));
  }
}

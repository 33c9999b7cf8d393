/** The QIDO-RS query levels and the attribute tags each returns. The four
    entity levels list their tags directly; the three combined levels take the
    tags of the levels they combine, concatenated and sorted (catAndSort). */
module Qido {
  import opened IntSort

  datatype QidoLevel = Patient | Study | Series | Instance | StudySeries | StudySeriesInstance | SeriesInstance

  /** The tag lists written out for the four entity levels. They are dcm4che
      Tag constants, whose numeric values are not part of this model. */
  datatype EntityTags = EntityTags(patient: seq<int>, study: seq<int>, series: seq<int>, instance: seq<int>)

  /** The arguments each combined level gives catAndSort. */
  function Combined(level: QidoLevel, t: EntityTags): seq<seq<int>>
    requires level in {StudySeries, StudySeriesInstance, SeriesInstance}
  {
    match level
    case StudySeries => [t.study, t.series]
    case StudySeriesInstance => [t.study, t.series, t.instance]
    case SeriesInstance => [t.series, t.instance]
  }

  /** includedTags of a level. */
  function IncludedTags(level: QidoLevel, t: EntityTags): seq<int>
  {
    match level
    case Patient => t.patient
    case Study => t.study
    case Series => t.series
    case Instance => t.instance
    case _ => SortSeq(Concat(Combined(level, t)))
  }

  /** catAndSort: the lengths summed, every list copied into one new array at
      the running offset, then that array sorted in place. */
  method CatAndSort(srcs: seq<seq<int>>) returns (dest: array<int>)
    ensures dest[..] == SortSeq(Concat(srcs))
  {
    var totlen := 0;
    for k := 0 to |srcs|
      invariant totlen == SumLengths(srcs[..k])
    {
      assert srcs[..k + 1][..k] == srcs[..k];
      totlen := totlen + |srcs[k]|;
    }
    assert srcs[..|srcs|] == srcs;
    ConcatLength(srcs);
    dest := new int[totlen];
    var off := 0;
    for k := 0 to |srcs|
      invariant off == |Concat(srcs[..k])| <= dest.Length
      invariant dest[..off] == Concat(srcs[..k])
    {
      assert srcs[..k + 1][..k] == srcs[..k];
      ConcatPrefixLength(srcs, k + 1);
      ArrayCopy(srcs[k], dest, off);
      off := off + |srcs[k]|;
    }
    assert srcs[..|srcs|] == srcs;
    assert dest[..] == dest[..off];
    Sort(dest);
  }

  /** System.arraycopy(src, 0, dest, off, src.length): the list lands at `off`,
      and the cells before it are kept. */
  method ArrayCopy(src: seq<int>, dest: array<int>, off: nat)
    requires off + |src| <= dest.Length
    modifies dest
    ensures dest[..off + |src|] == old(dest[..off]) + src
  {
    for i := 0 to |src|
      invariant dest[..off + i] == old(dest[..off]) + src[..i]
    {
      dest[off + i] := src[i];
    }
    assert src[..|src|] == src;
  }

  /** catAndSort's result: as long as all lists together, ascending, and holding
      each tag as often as the lists do together. */
  lemma CatAndSortSpec(srcs: seq<seq<int>>)
    ensures |SortSeq(Concat(srcs))| == SumLengths(srcs)
    ensures Sorted(SortSeq(Concat(srcs)))
    ensures multiset(SortSeq(Concat(srcs))) == multiset(Concat(srcs))
  {
    SortSeqSpec(Concat(srcs));
    ConcatLength(srcs);
  }

  /** STUDY_SERIES holds the STUDY tags and the SERIES tags, in ascending order. */
  lemma StudySeriesTags(t: EntityTags)
    ensures Sorted(IncludedTags(StudySeries, t))
    ensures multiset(IncludedTags(StudySeries, t)) == multiset(t.study) + multiset(t.series)
  {
    ConcatTwo(t.study, t.series);
    SortSeqSpec(t.study + t.series);
  }

  /** SERIES_INSTANCE holds the SERIES tags and the INSTANCE tags, in ascending order. */
  lemma SeriesInstanceTags(t: EntityTags)
    ensures Sorted(IncludedTags(SeriesInstance, t))
    ensures multiset(IncludedTags(SeriesInstance, t)) == multiset(t.series) + multiset(t.instance)
  {
    ConcatTwo(t.series, t.instance);
    SortSeqSpec(t.series + t.instance);
  }

  /** STUDY_SERIES_INSTANCE holds the tags of all three levels, in ascending order. */
  lemma StudySeriesInstanceTags(t: EntityTags)
    ensures Sorted(IncludedTags(StudySeriesInstance, t))
    ensures multiset(IncludedTags(StudySeriesInstance, t)) ==
      multiset(t.study) + multiset(t.series) + multiset(t.instance)
  {
    ConcatThree(t.study, t.series, t.instance);
    SortSeqSpec(t.study + t.series + t.instance);
  }

  /** The combined levels do not depend on how the sort is carried out: any
      ascending list with the same tags is that level's list. */
  lemma CombinedUnique(level: QidoLevel, t: EntityTags, other: seq<int>)
    requires level in {StudySeries, StudySeriesInstance, SeriesInstance}
    requires Sorted(other) && multiset(other) == multiset(Concat(Combined(level, t)))
    ensures other == IncludedTags(level, t)
  {
    SortSeqSpec(Concat(Combined(level, t)));
    SortedPermutationUnique(other, IncludedTags(level, t));
  }
}

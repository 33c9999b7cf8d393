/** The ROI presets a project configures for each collection type: which types
    a request may name, and the de-duplication, ordering and label checks a
    preset list passes before it is stored. */
module ViewerConfigApi {
  import opened JavaText
  import IntSort

  const Aim: string := "AIM"
  const Segmentation: string := "SEG"
  const Measurement: string := "MEAS"
  /** The GET type that stands for every collection type. */
  const All: string := "ALL"

  /** allowableRoiTypes, in declaration order. */
  const AllowableRoiTypes: seq<string> := [Aim, Segmentation, Measurement]

  /** The longest label a preset may carry. */
  const MaxLabelLength: nat := 64

  /** How a request fails. UnprocessableEntity and IllegalArgument are the
      plugin codes the source raises; NullLabel is the NullPointerException
      the label comparator raises on a null label, which nothing catches. */
  datatype ConfigError = UnprocessableEntity | IllegalArgument | NullLabel

  /** A preset as the request body carries it: a label (null when the JSON
      says so) and its colour. */
  datatype Preset = Preset(roiLabel: Option<string>, color: seq<int>)

  // ---------------------------------------------------------------- request types

  /** No lower-case ASCII letter. */
  predicate NoLowerCase(s: string)
  {
    forall i :: 0 <= i < |s| ==> !('a' <= s[i] <= 'z')
  }

  /** The type getRoiPresets looks up: "ALL" when the parameter is null or
      empty, otherwise the parameter upper-cased. */
  function RoiType(requested: Option<string>): (r: string)
    ensures requested.None? || requested.value == [] ==> r == All
    ensures requested.Some? && requested.value != [] ==> EqualsIgnoreCase(r, requested.value) && NoLowerCase(r)
  {
    if requested.None? || requested.value == [] then All else ToUpper(requested.value)
  }

  /** The types getProjectConfigMap knows. */
  predicate KnownType(roiType: string)
  {
    roiType in AllowableRoiTypes || roiType == All
  }

  /** The keys getProjectConfigMap fills for a known type. */
  function ConfigKeys(roiType: string): set<string>
  {
    if roiType == All then set t | t in AllowableRoiTypes else {roiType}
  }

  /** getProjectConfigMap: one entry per collection type the request names,
      each holding what the configuration service stores for that type
      (`lookup`); any other type is refused. */
  method GetProjectConfigMap<C>(roiType: string, lookup: string -> C) returns (r: Result<map<string, C>, ConfigError>)
    ensures r.Ok? <==> KnownType(roiType)
    ensures r.Err? ==> r.error == UnprocessableEntity
    ensures r.Ok? ==> r.value.Keys == ConfigKeys(roiType)
    ensures r.Ok? ==> forall t :: t in r.value ==> r.value[t] == lookup(t)
  {
    var projectConfigMap: map<string, C> := map[];
    if roiType == Aim || roiType == Segmentation || roiType == Measurement {
      projectConfigMap := projectConfigMap[roiType := lookup(roiType)];
    } else if roiType == All {
      for i := 0 to |AllowableRoiTypes|
        invariant projectConfigMap.Keys == set t | t in AllowableRoiTypes[..i]
        invariant forall t :: t in projectConfigMap ==> projectConfigMap[t] == lookup(t)
      {
        var roiTypeName := AllowableRoiTypes[i];
        projectConfigMap := projectConfigMap[roiTypeName := lookup(roiTypeName)];
      }
      assert AllowableRoiTypes[..|AllowableRoiTypes|] == AllowableRoiTypes;
    } else {
      return Err(UnprocessableEntity);
    }
    return Ok(projectConfigMap);
  }

  /** A type GET accepts: none at all, or one of AIM, SEG, MEAS and ALL in any
      capitalisation. */
  predicate GetTypeAccepted(requested: Option<string>)
  {
    requested.None? || requested.value == [] ||
    EqualsIgnoreCase(requested.value, Aim) || EqualsIgnoreCase(requested.value, Segmentation) ||
    EqualsIgnoreCase(requested.value, Measurement) || EqualsIgnoreCase(requested.value, All)
  }

  /** getRoiPresets, after the permission check (which here comes first): the
      type is checked, then the configurations of the requested type, or of all
      three when none is named. */
  method GetRoiPresets<C>(requested: Option<string>, lookup: string -> C) returns (r: Result<map<string, C>, ConfigError>)
    ensures r.Ok? <==> GetTypeAccepted(requested)
    ensures r.Err? ==> r.error == UnprocessableEntity
    ensures r.Ok? && (requested.None? || requested.value == []) ==> r.value.Keys == set t | t in AllowableRoiTypes
    ensures r.Ok? ==> r.value.Keys == ConfigKeys(RoiType(requested))
    ensures r.Ok? ==> forall t :: t in r.value ==> r.value[t] == lookup(t)
  {
    var roiType := RoiType(requested);
    if requested.Some? && requested.value != [] {
      UpperMatches(requested.value, roiType, Aim);
      UpperMatches(requested.value, roiType, Segmentation);
      UpperMatches(requested.value, roiType, Measurement);
      UpperMatches(requested.value, roiType, All);
    }
    r := GetProjectConfigMap(roiType, lookup);
  }

  /** The upper-cased parameter equals an upper-case name exactly when the
      parameter equals it ignoring case. */
  lemma UpperMatches(s: string, upper: string, name: string)
    requires EqualsIgnoreCase(upper, s) && NoLowerCase(upper)
    requires forall i :: 0 <= i < |name| ==> 'A' <= name[i] <= 'Z'
    ensures upper == name <==> EqualsIgnoreCase(s, name)
  {
    if EqualsIgnoreCase(s, name) {
      assert forall i :: 0 <= i < |name| ==> upper[i] == name[i];
    }
  }

  /** A type PUT accepts: exactly AIM, SEG or MEAS. */
  predicate PutTypeAccepted(requested: Option<string>)
  {
    requested.Some? && requested.value != [] && requested.value in AllowableRoiTypes
  }

  /** setRoiPresets: the type is checked first, before the permission check
      (which is not modelled), then the list; what would be stored is the
      checked list. */
  method SetRoiPresets(requested: Option<string>, roiPresetList: seq<Preset>) returns (r: Result<seq<Preset>, ConfigError>)
    ensures !PutTypeAccepted(requested) ==> r == Err(UnprocessableEntity)
    ensures r.Ok? <==> PutTypeAccepted(requested) && AllLabelsValid(roiPresetList)
    ensures r.Ok? ==> SortedByLabel(r.value) && multiset(r.value) == multiset(Deduped(roiPresetList))
  {
    if requested.None? || requested.value == [] || requested.value !in AllowableRoiTypes {
      return Err(UnprocessableEntity);
    }
    r := ParseRoiPresetList(roiPresetList);
  }

  /** Presets stored under a type PUT accepts are what GET with that type
      returns: GET accepts it and asks the configuration service for exactly
      that key. */
  lemma PutThenGet(requested: Option<string>)
    requires PutTypeAccepted(requested)
    ensures GetTypeAccepted(requested)
    ensures RoiType(requested) == requested.value && KnownType(RoiType(requested))
    ensures ConfigKeys(RoiType(requested)) == {requested.value}
  {
    var s := requested.value;
    assert s == Aim || s == Segmentation || s == Measurement;
    assert forall i :: 0 <= i < |s| ==> UpperChar(s[i]) == s[i];
    assert EqualsIgnoreCase(s, s);
  }

  // ---------------------------------------------------------------- de-duplication

  /** The labels of a list, in order. */
  function Labels(ps: seq<Preset>): (ls: seq<Option<string>>)
    ensures |ls| == |ps| && forall i :: 0 <= i < |ps| ==> ls[i] == ps[i].roiLabel
  {
    seq(|ps|, i requires 0 <= i < |ps| => ps[i].roiLabel)
  }

  /** What a HashSet of presets keeps, in the order they were added: a preset
      is added only when no preset already kept has an equal label (equality
      of presets is equality of labels). */
  function Deduped(ps: seq<Preset>): seq<Preset>
  {
    if ps == [] then []
    else
      var kept := Deduped(ps[..|ps| - 1]);
      var p := ps[|ps| - 1];
      if p.roiLabel in Labels(kept) then kept else kept + [p]
  }

  /** No two entries share a label. */
  predicate LabelsDistinct(ps: seq<Preset>)
  {
    forall i, j :: 0 <= i < j < |ps| ==> ps[i].roiLabel != ps[j].roiLabel
  }

  /** ps[i] is the first entry with its label. */
  predicate FirstOfLabel(ps: seq<Preset>, i: int)
  {
    0 <= i < |ps| && forall j :: 0 <= j < i ==> ps[j].roiLabel != ps[i].roiLabel
  }

  /** The kept presets carry distinct labels, the same labels as the list, and
      are exactly the first preset of each label. */
  lemma {:induction false} DedupedSpec(ps: seq<Preset>)
    ensures LabelsDistinct(Deduped(ps))
    ensures forall l :: l in Labels(Deduped(ps)) <==> l in Labels(ps)
    ensures forall p :: p in Deduped(ps) <==> exists i :: FirstOfLabel(ps, i) && ps[i] == p
  {
    if ps != [] {
      var n := |ps| - 1;
      var init := ps[..n];
      var p := ps[n];
      var kept := Deduped(init);
      DedupedSpec(init);
      assert ps == init + [p];
      LabelsSnoc(init, p);
      assert forall i :: 0 <= i < n ==> (FirstOfLabel(ps, i) <==> FirstOfLabel(init, i));
      if p.roiLabel in Labels(kept) {
        var j :| 0 <= j < n && init[j].roiLabel == p.roiLabel;
        assert !FirstOfLabel(ps, n);
      } else {
        assert FirstOfLabel(ps, n);
        DistinctSnoc(kept, p);
        LabelsSnoc(kept, p);
      }
    }
  }

  lemma LabelsSnoc(ps: seq<Preset>, p: Preset)
    ensures Labels(ps + [p]) == Labels(ps) + [p.roiLabel]
  {
  }

  lemma DistinctSnoc(kept: seq<Preset>, p: Preset)
    requires LabelsDistinct(kept) && p.roiLabel !in Labels(kept)
    ensures LabelsDistinct(kept + [p])
  {
    forall i, j | 0 <= i < j < |kept| + 1 ensures (kept + [p])[i].roiLabel != (kept + [p])[j].roiLabel {
      if j == |kept| {
        assert Labels(kept)[i] == kept[i].roiLabel;
      }
    }
  }

  /** A list whose labels are already distinct loses nothing. */
  lemma {:induction false} DedupedOfDistinct(ps: seq<Preset>)
    requires LabelsDistinct(ps)
    ensures Deduped(ps) == ps
  {
    if ps != [] {
      var n := |ps| - 1;
      DedupedOfDistinct(ps[..n]);
      assert ps[n].roiLabel !in Labels(ps[..n]);
      assert ps == ps[..n] + [ps[n]];
    }
  }

  // ---------------------------------------------------------------- sorting by label

  /** The label the comparator reads; only ever compared when present. */
  function Key(p: Preset): string
  {
    if p.roiLabel.Some? then p.roiLabel.value else []
  }

  /** The labels rise strictly under String.compareTo. */
  predicate Ascending(ps: seq<Preset>)
  {
    forall i, j :: 0 <= i < j < |ps| ==> CompareTo(Key(ps[i]), Key(ps[j])) < 0
  }

  /** Every entry has a label, and the labels rise strictly. */
  predicate SortedByLabel(ps: seq<Preset>)
  {
    None !in Labels(ps) && Ascending(ps)
  }

  /** Every label lies below `bound`. */
  predicate Below(ps: seq<Preset>, bound: string)
  {
    forall k :: 0 <= k < |ps| ==> CompareTo(Key(ps[k]), bound) < 0
  }

  /** No entry has the label `key`. */
  predicate KeyAbsent(ps: seq<Preset>, key: string)
  {
    forall k :: 0 <= k < |ps| ==> Key(ps[k]) != key
  }

  /** No two entries have the same label. */
  predicate KeysDistinct(ps: seq<Preset>)
  {
    forall i, j :: 0 <= i < j < |ps| ==> Key(ps[i]) != Key(ps[j])
  }

  /** `p` placed into the sorted list `s` after every label below its own. */
  function InsertByLabel(s: seq<Preset>, p: Preset): seq<Preset>
  {
    if s == [] then [p]
    else if CompareTo(Key(s[|s| - 1]), Key(p)) < 0 then s + [p]
    else InsertByLabel(s[..|s| - 1], p) + [s[|s| - 1]]
  }

  /** List.sort with the label comparator, once every label is known to be
      present. */
  function SortByLabel(ps: seq<Preset>): seq<Preset>
  {
    if ps == [] then [] else InsertByLabel(SortByLabel(ps[..|ps| - 1]), ps[|ps| - 1])
  }

  lemma {:induction false} InsertByLabelMultiset(s: seq<Preset>, p: Preset)
    ensures multiset(InsertByLabel(s, p)) == multiset(s) + multiset{p}
  {
    if s != [] && CompareTo(Key(s[|s| - 1]), Key(p)) >= 0 {
      InsertByLabelMultiset(s[..|s| - 1], p);
      assert s == s[..|s| - 1] + [s[|s| - 1]];
    }
  }

  lemma {:induction false} InsertByLabelBelow(s: seq<Preset>, p: Preset, bound: string)
    requires Below(s, bound) && CompareTo(Key(p), bound) < 0
    ensures Below(InsertByLabel(s, p), bound)
  {
    if s != [] && CompareTo(Key(s[|s| - 1]), Key(p)) >= 0 {
      InsertByLabelBelow(s[..|s| - 1], p, bound);
    }
  }

  lemma AscendingSnoc(q: seq<Preset>, p: Preset)
    requires Ascending(q) && Below(q, Key(p))
    ensures Ascending(q + [p])
  {
  }

  /** An ascending list whose last label is below `p`'s has all labels below it. */
  lemma AscendingBelowLast(s: seq<Preset>, p: Preset)
    requires Ascending(s) && s != [] && CompareTo(Key(s[|s| - 1]), Key(p)) < 0
    ensures Below(s, Key(p))
  {
    forall k | 0 <= k < |s| - 1 ensures CompareTo(Key(s[k]), Key(p)) < 0 {
      CompareToTransitive(Key(s[k]), Key(s[|s| - 1]), Key(p));
    }
  }

  lemma {:induction false} InsertByLabelAscending(s: seq<Preset>, p: Preset)
    requires Ascending(s) && KeyAbsent(s, Key(p))
    ensures Ascending(InsertByLabel(s, p))
  {
    if s == [] {
    } else if CompareTo(Key(s[|s| - 1]), Key(p)) < 0 {
      AscendingBelowLast(s, p);
      AscendingSnoc(s, p);
    } else {
      var init := s[..|s| - 1];
      var last := s[|s| - 1];
      CompareToZero(Key(last), Key(p));
      CompareToAntisymmetric(Key(last), Key(p));
      InsertByLabelAscending(init, p);
      assert Below(init, Key(last));
      InsertByLabelBelow(init, p, Key(last));
      AscendingSnoc(InsertByLabel(init, p), last);
    }
  }

  /** A label absent from a list is absent from any list with the same entries. */
  lemma KeyAbsentPermutation(a: seq<Preset>, b: seq<Preset>, key: string)
    requires multiset(a) == multiset(b) && KeyAbsent(a, key)
    ensures KeyAbsent(b, key)
  {
    forall k | 0 <= k < |b| ensures Key(b[k]) != key {
      assert b[k] in multiset(a);
      var m :| 0 <= m < |a| && a[m] == b[k];
    }
  }

  /** Sorting a list of distinct labels orders it and keeps its entries. */
  lemma SortByLabelSpec(ps: seq<Preset>)
    requires KeysDistinct(ps)
    ensures Ascending(SortByLabel(ps))
    ensures multiset(SortByLabel(ps)) == multiset(ps)
  {
    SortByLabelMultiset(ps);
    SortByLabelAscending(ps);
  }

  lemma {:induction false} SortByLabelMultiset(ps: seq<Preset>)
    ensures multiset(SortByLabel(ps)) == multiset(ps)
  {
    if ps != [] {
      var n := |ps| - 1;
      var init, last := ps[..n], ps[n];
      var sorted := SortByLabel(init);
      assert SortByLabel(ps) == InsertByLabel(sorted, last);
      SortByLabelMultiset(init);
      InsertByLabelMultiset(sorted, last);
      assert ps == init + [last];
      assert multiset(ps) == multiset(init) + multiset{last};
    }
  }

  lemma {:induction false} SortByLabelAscending(ps: seq<Preset>)
    requires KeysDistinct(ps)
    ensures Ascending(SortByLabel(ps))
  {
    if ps != [] {
      var n := |ps| - 1;
      var init := ps[..n];
      KeysDistinctInit(ps);
      SortByLabelAscending(init);
      SortByLabelMultiset(init);
      var sorted := SortByLabel(init);
      KeyAbsentPermutation(init, sorted, Key(ps[n]));
      InsertByLabelAscending(sorted, ps[n]);
    }
  }

  lemma KeysDistinctInit(ps: seq<Preset>)
    requires KeysDistinct(ps) && ps != []
    ensures KeysDistinct(ps[..|ps| - 1]) && KeyAbsent(ps[..|ps| - 1], Key(ps[|ps| - 1]))
  {
  }

  /** Two ascending lists with the same entries are the same list: the stored
      order does not depend on the order in which the hash set hands its
      entries to the sort. */
  lemma {:induction false} AscendingUnique(a: seq<Preset>, b: seq<Preset>)
    requires Ascending(a) && Ascending(b) && multiset(a) == multiset(b)
    ensures a == b
    decreases |a|
  {
    assert |a| == |multiset(a)| == |b|;
    if a != [] {
      AscendingHeads(a, b);
      IntSort.TailMultiset(a);
      IntSort.TailMultiset(b);
      AscendingUnique(a[1..], b[1..]);
      assert a == [a[0]] + a[1..] && b == [b[0]] + b[1..];
    }
  }

  lemma AscendingHeads(a: seq<Preset>, b: seq<Preset>)
    requires Ascending(a) && Ascending(b) && multiset(a) == multiset(b) && a != [] && b != []
    ensures a[0] == b[0]
  {
    assert a[0] in multiset(b) && b[0] in multiset(a);
    var i :| 0 <= i < |b| && b[i] == a[0];
    var j :| 0 <= j < |a| && a[j] == b[0];
    if i != 0 && j != 0 {
      CompareToAntisymmetric(Key(a[0]), Key(b[0]));
    }
  }

  // ---------------------------------------------------------------- the checks

  /** A label the source stores: present, not empty, at most 64 characters. */
  predicate ValidLabel(l: Option<string>)
  {
    l.Some? && l.value != [] && |l.value| <= MaxLabelLength
  }

  predicate AllLabelsValid(ps: seq<Preset>)
  {
    forall i :: 0 <= i < |ps| ==> ValidLabel(ps[i].roiLabel)
  }

  /** Validity of every label depends only on which labels occur. */
  lemma SameLabelsValid(a: seq<Preset>, b: seq<Preset>)
    requires forall l :: l in Labels(a) <==> l in Labels(b)
    ensures AllLabelsValid(a) ==> AllLabelsValid(b)
  {
    if AllLabelsValid(a) {
      forall i | 0 <= i < |b| ensures ValidLabel(b[i].roiLabel) {
        assert Labels(b)[i] == b[i].roiLabel;
        assert b[i].roiLabel in Labels(a);
        var k :| 0 <= k < |a| && Labels(a)[k] == b[i].roiLabel;
      }
    }
  }

  /** Two lists with the same entries have the same labels. */
  lemma PermutationLabels(a: seq<Preset>, b: seq<Preset>)
    requires multiset(a) == multiset(b)
    ensures forall l :: l in Labels(a) ==> l in Labels(b)
  {
    forall l | l in Labels(a) ensures l in Labels(b) {
      var k :| 0 <= k < |a| && Labels(a)[k] == l;
      assert a[k] in multiset(b);
      LabelOfMember(b, a[k]);
    }
  }

  /** The label of an entry of a list is one of the list's labels. */
  lemma LabelOfMember(ps: seq<Preset>, p: Preset)
    requires p in ps
    ensures p.roiLabel in Labels(ps)
  {
    var i :| 0 <= i < |ps| && ps[i] == p;
    assert Labels(ps)[i] == p.roiLabel;
  }

  /** Present, distinct labels are distinct comparator keys. */
  lemma DistinctKeys(ps: seq<Preset>)
    requires None !in Labels(ps) && LabelsDistinct(ps)
    ensures KeysDistinct(ps)
  {
    forall i, j | 0 <= i < j < |ps| ensures Key(ps[i]) != Key(ps[j]) {
      assert Labels(ps)[i] == ps[i].roiLabel && Labels(ps)[j] == ps[j].roiLabel;
    }
  }

  /** The HashSet built from the request list: each preset added unless one
      with an equal label is already in it. */
  method RemoveDuplicates(roiPresetList: seq<Preset>) returns (presetSet: seq<Preset>)
    ensures presetSet == Deduped(roiPresetList)
  {
    presetSet := [];
    for i := 0 to |roiPresetList|
      invariant presetSet == Deduped(roiPresetList[..i])
    {
      assert roiPresetList[..i + 1][..i] == roiPresetList[..i];
      var preset := roiPresetList[i];
      if preset.roiLabel !in Labels(presetSet) {
        presetSet := presetSet + [preset];
      }
    }
    assert roiPresetList[..|roiPresetList|] == roiPresetList;
  }

  /** The sort of the de-duplicated list, once no label is null: ordered by
      label, with the same entries and so the same labels. */
  lemma SortOutcome(list: seq<Preset>)
    requires None !in Labels(list) && LabelsDistinct(list)
    ensures SortedByLabel(SortByLabel(list))
    ensures multiset(SortByLabel(list)) == multiset(list)
    ensures AllLabelsValid(SortByLabel(list)) <==> AllLabelsValid(list)
  {
    DistinctKeys(list);
    SortByLabelSpec(list);
    var sorted := SortByLabel(list);
    PermutationLabels(list, sorted);
    PermutationLabels(sorted, list);
    SameLabelsValid(list, sorted);
    SameLabelsValid(sorted, list);
  }

  /** The label check loop: false at the first label that is null, empty or
      longer than 64 characters. */
  method CheckLabels(list: seq<Preset>) returns (ok: bool)
    ensures ok <==> AllLabelsValid(list)
  {
    for i := 0 to |list|
      invariant forall k :: 0 <= k < i ==> ValidLabel(list[k].roiLabel)
    {
      var roiLabel := list[i].roiLabel;
      if roiLabel.None? || roiLabel.value == [] {
        return false;
      } else if |roiLabel.value| > MaxLabelLength {
        return false;
      }
    }
    return true;
  }

  /** parseRoiPresetList: duplicates removed, the rest sorted by label, then
      every label checked. With two or more presets the comparator meets every
      label, so a null label fails there; otherwise the first empty, missing
      or over-long label is refused. The result is the list the source
      serialises to JSON. */
  method ParseRoiPresetList(roiPresetList: seq<Preset>) returns (r: Result<seq<Preset>, ConfigError>)
    ensures r.Ok? <==> AllLabelsValid(roiPresetList)
    ensures r.Err? ==> r.error == if None in Labels(roiPresetList) && |Deduped(roiPresetList)| >= 2 then NullLabel else IllegalArgument
    ensures r.Ok? ==> SortedByLabel(r.value) && multiset(r.value) == multiset(Deduped(roiPresetList))
  {
    var list := RemoveDuplicates(roiPresetList);
    DedupedSpec(roiPresetList);
    SameLabelsValid(list, roiPresetList);
    SameLabelsValid(roiPresetList, list);
    if |list| >= 2 {
      if None in Labels(list) {
        return Err(NullLabel);
      }
      SortOutcome(list);
      list := SortByLabel(list);
    }
    var ok := CheckLabels(list);
    if !ok {
      return Err(IllegalArgument);
    }
    if |list| < 2 {
      NoneInvalid(list);
      DedupedOfDistinct(list);
    }
    return Ok(list);
  }

  /** A list whose labels are all valid has no null label and, being
      at most one entry long, is trivially in order. */
  lemma NoneInvalid(list: seq<Preset>)
    requires AllLabelsValid(list) && |list| < 2
    ensures SortedByLabel(list) && LabelsDistinct(list)
  {
    if list != [] {
      assert Labels(list) == [list[0].roiLabel];
    }
  }

  /** A list that came back from parseRoiPresetList and is parsed again is
      stored unchanged: it loses no duplicate and sorting keeps it as it is. */
  lemma ParseIdempotent(ps: seq<Preset>)
    requires SortedByLabel(ps)
    ensures Deduped(ps) == ps && SortByLabel(ps) == ps
  {
    assert LabelsDistinct(ps) by {
      forall i, j | 0 <= i < j < |ps| ensures ps[i].roiLabel != ps[j].roiLabel {
        assert Labels(ps)[i] == ps[i].roiLabel && Labels(ps)[j] == ps[j].roiLabel;
        CompareToZero(Key(ps[i]), Key(ps[j]));
      }
    }
    DedupedOfDistinct(ps);
    DistinctKeys(ps);
    SortByLabelSpec(ps);
    AscendingUnique(SortByLabel(ps), ps);
  }
}

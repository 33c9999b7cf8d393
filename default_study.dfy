/** A study of the DICOM toolkit: its series by UID and the OR of their modality
    bits, kept up to date as series are added and removed. */
module Studies {
  import opened JavaText
  import opened Modality

  /** What the study sees of a series: its UID and modality code. */
  datatype Series = Series(uid: string, modality: string)

  /** The OR of a sequence of masks. */
  function OrAll(ms: seq<Mask>): Mask
  {
    if ms == [] then {} else OrAll(ms[..|ms| - 1]) + ms[|ms| - 1]
  }

  /** A bit of the OR is set exactly when one of the masks has it. */
  lemma {:induction false} OrAllBits(ms: seq<Mask>, i: nat)
    ensures HasBit(OrAll(ms), i) <==> exists j :: 0 <= j < |ms| && HasBit(ms[j], i)
  {
    if ms != [] {
      var p := ms[..|ms| - 1];
      OrAllBits(p, i);
      if HasBit(OrAll(p), i) {
        var j :| 0 <= j < |p| && HasBit(p[j], i);
        assert ms[j] == p[j];
      }
      if exists j :: 0 <= j < |ms| && HasBit(ms[j], i) {
        var j :| 0 <= j < |ms| && HasBit(ms[j], i);
        if j < |p| {
          assert p[j] == ms[j];
        }
      }
    }
  }

  /** The modality masks of the listed series. */
  function MasksOf(ks: seq<string>, series: map<string, Series>): (ms: seq<Mask>)
    requires forall k :: k in ks ==> k in series
    ensures |ms| == |ks| && forall j :: 0 <= j < |ks| ==> ms[j] == Bitmask(series[ks[j]].modality)
  {
    if ks == [] then [] else MasksOf(ks[..|ks| - 1], series) + [Bitmask(series[ks[|ks| - 1]].modality)]
  }

  /** The bits of all of the listed series' modalities. */
  function MaskOver(ks: seq<string>, series: map<string, Series>): Mask
    requires forall k :: k in ks ==> k in series
  {
    OrAll(MasksOf(ks, series))
  }

  lemma MaskOverSnoc(ks: seq<string>, k: string, series: map<string, Series>)
    requires k in series && forall x :: x in ks ==> x in series
    ensures MaskOver(ks + [k], series) == MaskOver(ks, series) + Bitmask(series[k].modality)
  {
    var ms := MasksOf(ks + [k], series);
    assert ms[..|ms| - 1] == MasksOf(ks, series);
  }

  /** A bit of the OR is set exactly when one of the listed series' modalities
      owns it. */
  lemma MaskOverBits(ks: seq<string>, series: map<string, Series>, i: nat)
    requires forall k :: k in ks ==> k in series
    ensures HasBit(MaskOver(ks, series), i) <==> exists k :: k in ks && HasBit(Bitmask(series[k].modality), i)
  {
    var ms := MasksOf(ks, series);
    OrAllBits(ms, i);
    if HasBit(MaskOver(ks, series), i) {
      var j :| 0 <= j < |ms| && HasBit(ms[j], i);
      assert ks[j] in ks;
    }
    if exists k :: k in ks && HasBit(Bitmask(series[k].modality), i) {
      var k :| k in ks && HasBit(Bitmask(series[k].modality), i);
      var j :| 0 <= j < |ks| && ks[j] == k;
      assert HasBit(ms[j], i);
    }
  }

  /** Every bit of every series' modality is set in `mask`. */
  predicate CoversAll(mask: Mask, series: map<string, Series>)
  {
    forall k :: k in series ==> Bitmask(series[k].modality) <= mask
  }

  /** The OR over a listing of the keys covers every series' bits. */
  lemma MaskOverCovers(ks: seq<string>, series: map<string, Series>)
    requires forall k :: k in ks <==> k in series
    ensures CoversAll(MaskOver(ks, series), series)
  {
    forall k | k in series
      ensures Bitmask(series[k].modality) <= MaskOver(ks, series)
    {
      forall i | i in Bitmask(series[k].modality)
        ensures i in MaskOver(ks, series)
      {
        assert k in ks && HasBit(Bitmask(series[k].modality), i);
        MaskOverBits(ks, series, i);
      }
    }
  }

  /** Listing every key of `m` exactly once: the map's entry-set order. */
  ghost predicate ListsKeys(ks: seq<string>, m: map<string, Series>)
  {
    (forall k :: k in ks <==> k in m) &&
    (forall a, b :: 0 <= a < b < |ks| ==> ks[a] != ks[b])
  }

  class DefaultStudy {
    var accession: string
    var date: string
    var desc: string
    var id: string
    var uid: string
    var modality: Mask
    var seriesMap: map<string, Series>

    /** Every series is filed under its own UID and its modality's bit is set in
        the study's mask. */
    ghost predicate Valid()
      reads this
    {
      (forall k :: k in seriesMap ==> seriesMap[k].uid == k) &&
      CoversAll(modality, seriesMap)
    }

    /** DefaultStudy(uid): empty strings, no series, an empty mask. */
    constructor(uid: string)
      ensures Valid()
      ensures this.uid == uid && accession == "" && date == "" && desc == "" && id == ""
      ensures modality == {} && seriesMap == map[]
    {
      this.uid := uid;
      accession := "";
      date := "";
      desc := "";
      id := "";
      modality := {};
      seriesMap := map[];
    }

    predicate HasSeries(uid: string)
      reads this
      ensures HasSeries(uid) ==> GetSeriesCount() > 0
    {
      uid in seriesMap
    }

    function GetSeries(uid: string): (s: Option<Series>)
      reads this
      ensures s.Some? <==> HasSeries(uid)
    {
      if uid in seriesMap then Some(seriesMap[uid]) else None
    }

    function GetSeriesCount(): (r: nat)
      reads this
      ensures r == 0 <==> seriesMap == map[]
    {
      |seriesMap|
    }

    /** addSeries: the series is filed under its UID, replacing any series of that
        UID, and its modality's bit joins the mask; the replaced series is
        returned. The mask is not recomputed, so a replaced series' bit stays. */
    method AddSeries(series: Series) returns (previous: Option<Series>)
      requires Valid()
      modifies this
      ensures Valid()
      ensures seriesMap == old(seriesMap)[series.uid := series]
      ensures modality == old(modality) + Bitmask(series.modality)
      ensures previous == old(GetSeries(series.uid))
      ensures HasSeries(series.uid) && GetSeries(series.uid) == Some(series)
      ensures unchanged(this`uid) && unchanged(this`accession) && unchanged(this`date)
      ensures unchanged(this`desc) && unchanged(this`id)
    {
      modality := modality + Bitmask(series.modality);
      previous := GetSeries(series.uid);
      seriesMap := seriesMap[series.uid := series];
    }

    /** removeSeries: the series of that UID leaves the map, then the mask is
        recomputed as the OR over the remaining series, visited in `order`, the
        map's iteration order. The map and the mask are stored once the OR is
        computed; no other thread observes the study in between. */
    method RemoveSeries(uid: string, order: seq<string>) returns (removed: Option<Series>)
      requires Valid()
      requires ListsKeys(order, seriesMap - {uid})
      modifies this
      ensures Valid()
      ensures seriesMap == old(seriesMap) - {uid}
      ensures removed == old(GetSeries(uid))
      ensures !HasSeries(uid)
      ensures modality == MaskOver(order, seriesMap)
      ensures unchanged(this`uid) && unchanged(this`accession) && unchanged(this`date)
      ensures unchanged(this`desc) && unchanged(this`id)
    {
      removed := GetSeries(uid);
      var remaining := seriesMap - {uid};
      assert forall k :: k in remaining ==> remaining[k].uid == k;
      var mask: Mask := {};
      var j := 0;
      while j < |order|
        invariant 0 <= j <= |order|
        invariant mask == MaskOver(order[..j], remaining)
        invariant unchanged(this)
      {
        assert order[..j + 1] == order[..j] + [order[j]];
        MaskOverSnoc(order[..j], order[j], remaining);
        mask := mask + Bitmask(remaining[order[j]].modality);
        j := j + 1;
      }
      assert order[..j] == order;
      seriesMap := remaining;
      modality := mask;
      MaskOverCovers(order, remaining);
    }

    /** getModality: the names of the mask's bits, by allStrings. */
    method GetModality(keyOrder: seq<nat>) returns (s: string)
      requires KeyOrder(keyOrder)
      ensures s == JoinWith(NamesOf(SetBits(keyOrder, modality)), ",")
    {
      s := AllStrings(modality, keyOrder);
    }
  }

  /** After removeSeries the mask is exact: a bit is set iff a remaining series'
      modality owns it, whatever order the map is visited in. */
  lemma RemovedMaskExact(order: seq<string>, series: map<string, Series>, i: nat)
    requires ListsKeys(order, series)
    ensures HasBit(MaskOver(order, series), i) <==>
      exists k :: k in series && HasBit(Bitmask(series[k].modality), i)
  {
    MaskOverBits(order, series, i);
  }
}

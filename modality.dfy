/** The modality registry: every DICOM modality code owns one bit of a 64-bit
    mask, so a study can record the set of its series' modalities in one long. */
module Modality {
  import opened JavaText

  /** The 47 modality codes; the code at index i owns bit i. */
  const Names: seq<string> := [
    "AU", "BI", "CD", "CR", "CT", "DD", "DG", "DSA", "DX", "ECG",
    "EPS", "ES", "GM", "HC", "HD", "IO", "IVUS", "LS", "MG", "MR",
    "NM", "OCT", "OP", "OPM", "OPR", "OPV", "OT", "PR", "PET", "PX",
    "REG", "RF", "RG", "RTDOSE", "RTIMAGE", "RTPLAN", "RTRECORD", "RTSTRUCT", "SEG", "SM",
    "SMR", "SR", "ST", "TG", "US", "XA", "XC"]

  const Descriptions: seq<string> := [
    "Audio", "Biomagnetic Imaging", "Color Flow Doppler", "Computed Radiography",
    "Computed Tomography", "Duplex Doppler", "Diaphanography", "Digital Subtraction Angiography",
    "Digital Radiography", "Electrocardiography", "Cardiac Electrophysiology", "Endoscopy",
    "General Microscopy", "Hard Copy", "Hemodynamic Waveform", "Intra-Oral Radiography",
    "Intravascular Ultrasound", "Laser Surface Scan", "Mammography", "Magnetic Resonance",
    "Nuclear Medicine", "Optical Coherence Tomography", "Ophthalmic Photography",
    "Ophthalmic Mapping", "Ophthalmic Refraction", "Ophthalmic Visual Field", "Other",
    "Presentation State", "Positron Emission Tomography", "Panoramic X-Ray", "Registration",
    "Radio Fluoroscopy", "Radiographic Imaging", "Radiotherapy Dose", "Radiotherapy Image",
    "Radiotherapy Plan", "RT Treatment Record", "Radiotherapy Structure Set", "Segmentation",
    "Slide Microscopy", "Stereometric Relationship", "SR Document",
    "Single-Photon Emission Computed Tomography", "Thermography", "Ultrasound",
    "X-Ray Angiography", "External-Camera Photography"]

  const Count: nat := 47
  const RtDoseBit: nat := 33
  const RtImageBit: nat := 34

  /** A Java `long` used as a set of flags, held as the positions of its one
      bits, each below 64: `a | b` is `a + b`, `a & b` is `a * b` and 0 is the
      empty set. */
  type Mask = m: set<nat> | forall i :: i in m ==> i < 64

  /** `1L << i`. */
  function Bit(i: nat): Mask
    requires i < 64
  {
    {i}
  }

  /** `(mask & (1L << i)) != 0`. */
  predicate HasBit(mask: Mask, i: nat)
  {
    i in mask
  }

  /** First position of `s` among the codes, None when it is not a code. */
  function NameIndex(s: string): (r: Option<nat>)
    ensures r.Some? ==> r.value < Count && Names[r.value] == s && forall j :: 0 <= j < r.value ==> Names[j] != s
    ensures r.None? <==> s !in Names
  {
    assert |Names| == Count;
    NameIndexFrom(s, 0)
  }

  function NameIndexFrom(s: string, k: nat): (r: Option<nat>)
    requires k <= Count
    requires forall j :: 0 <= j < k ==> Names[j] != s
    ensures r.Some? ==> k <= r.value < Count && Names[r.value] == s && forall j :: 0 <= j < r.value ==> Names[j] != s
    ensures r.None? <==> forall j :: 0 <= j < Count ==> Names[j] != s
    decreases Count - k
  {
    if k == Count then None
    else if Names[k] == s then Some(k)
    else NameIndexFrom(s, k + 1)
  }

  /** The code at a position as the mask-to-string table holds it: RTIMAGE's own
      bit is registered under the name RTDOSE. */
  function MaskName(i: nat): string
    requires i < Count
  {
    if i == RtImageBit then "RTDOSE" else Names[i]
  }

  /** bitmask(modality): the code's bit, RTIMAGE sharing RTDOSE's bit; 0 when the
      code is unknown. */
  function Bitmask(modality: string): (mask: Mask)
    ensures modality !in Names <==> mask == {}
    ensures modality in Names ==> exists i :: 0 <= i < Count && mask == Bit(i)
  {
    if modality == "RTIMAGE" then
      assert Names[RtImageBit] == modality;
      Bit(RtDoseBit)
    else match NameIndex(modality)
      case None => {}
      case Some(i) => Bit(i)
  }

  /** The position of a one-bit mask among the registered keys. */
  function KeyIndex(mask: Mask): (r: Option<nat>)
    ensures r.Some? ==> r.value < Count && mask == Bit(r.value)
    ensures r.None? ==> forall i :: 0 <= i < Count ==> mask != Bit(i)
  {
    KeyIndexFrom(mask, 0)
  }

  function KeyIndexFrom(mask: Mask, k: nat): (r: Option<nat>)
    requires k <= Count
    requires forall i :: 0 <= i < k ==> mask != Bit(i)
    ensures r.Some? ==> r.value < Count && mask == Bit(r.value)
    ensures r.None? ==> forall i :: 0 <= i < Count ==> mask != Bit(i)
    decreases Count - k
  {
    if k == Count then None
    else if mask == Bit(k) then Some(k)
    else KeyIndexFrom(mask, k + 1)
  }

  /** string(bitmask): the name registered for a one-bit key, None (null)
      for any other mask. */
  function String(mask: Mask): (r: Option<string>)
    ensures r.Some? <==> exists i :: 0 <= i < Count && mask == Bit(i)
    ensures forall i :: 0 <= i < Count && mask == Bit(i) ==> r == Some(MaskName(i))
  {
    match KeyIndex(mask)
    case None => None
    case Some(i) =>
      assert forall j :: 0 <= j < Count && mask == Bit(j) ==> j == i by {
        forall j | 0 <= j < Count && mask == Bit(j) ensures j == i { assert j in Bit(i); }
      }
      Some(MaskName(i))
  }

  /** description(modality): the code's description, None (null) when unknown. */
  function Description(modality: string): (r: Option<string>)
    ensures r.Some? <==> modality in Names
  {
    match NameIndex(modality)
    case None => None
    case Some(i) => Some(Descriptions[i])
  }

  /** Naming a code's mask gives the code back, except RTIMAGE, which comes back
      as RTDOSE. */
  lemma StringOfBitmask(modality: string)
    requires modality in Names
    ensures String(Bitmask(modality)) == Some(if modality == "RTIMAGE" then "RTDOSE" else modality)
  {
    if modality == "RTIMAGE" {
      assert String(Bit(RtDoseBit)) == Some(MaskName(RtDoseBit));
    } else {
      var i := NameIndex(modality).value;
      assert String(Bit(i)) == Some(MaskName(i));
    }
  }

  /** Two known codes share a mask only when they are equal or are RTDOSE and
      RTIMAGE. */
  lemma BitmaskInjective(a: string, b: string)
    requires a in Names && b in Names && Bitmask(a) == Bitmask(b)
    ensures a == b || (a in {"RTDOSE", "RTIMAGE"} && b in {"RTDOSE", "RTIMAGE"})
  {
    StringOfBitmask(a);
    StringOfBitmask(b);
  }

  // ---------------------------------------------------------------- allStrings

  /** A listing of the 47 registered keys by position: the iteration order of the
      key set, which the hash map fixes and the model leaves open. */
  predicate KeyOrder(order: seq<nat>)
  {
    (forall k :: 0 <= k < |order| ==> order[k] < Count) &&
    (forall i :: 0 <= i < Count ==> i in order) &&
    (forall k, l :: 0 <= k < l < |order| ==> order[k] != order[l])
  }

  /** The positions of `order` whose bit is set in `mask`, in order. */
  function SetBits(order: seq<nat>, mask: Mask): (r: seq<nat>)
    requires forall k :: 0 <= k < |order| ==> order[k] < Count
    ensures forall k :: 0 <= k < |r| ==> r[k] < Count
    ensures |r| <= |order|
  {
    if order == [] then []
    else
      var rest := SetBits(order[..|order| - 1], mask);
      var x := order[|order| - 1];
      if HasBit(mask, x) then rest + [x] else rest
  }

  /** The positions kept are exactly those of `order` whose bit is set. */
  lemma {:induction false} SetBitsMembers(order: seq<nat>, mask: Mask)
    requires forall k :: 0 <= k < |order| ==> order[k] < Count
    ensures forall x :: x in SetBits(order, mask) <==> x in order && HasBit(mask, x)
  {
    if order != [] {
      var p := order[..|order| - 1];
      SetBitsMembers(p, mask);
      assert order == p + [order[|order| - 1]];
    }
  }

  function NamesOf(bits: seq<nat>): (r: seq<string>)
    requires forall k :: 0 <= k < |bits| ==> bits[k] < Count
    ensures |r| == |bits| && forall k :: 0 <= k < |bits| ==> r[k] == MaskName(bits[k])
  {
    if bits == [] then [] else NamesOf(bits[..|bits| - 1]) + [MaskName(bits[|bits| - 1])]
  }

  /** Every name followed by a comma. */
  function Terminated(ns: seq<string>): string
  {
    if ns == [] then "" else Terminated(ns[..|ns| - 1]) + ns[|ns| - 1] + ","
  }

  /** Dropping the last comma of a comma-terminated list leaves the list joined
      with commas. */
  lemma {:induction false} TerminatedJoin(ns: seq<string>)
    requires ns != []
    ensures Terminated(ns) == JoinWith(ns, ",") + ","
  {
    if |ns| > 1 {
      TerminatedJoin(ns[..|ns| - 1]);
      JoinWithSnoc(ns[..|ns| - 1], ",", ns[|ns| - 1]);
      assert ns[..|ns| - 1] + [ns[|ns| - 1]] == ns;
    }
  }

  lemma TerminatedSnoc(ns: seq<string>, n: string)
    ensures Terminated(ns + [n]) == Terminated(ns) + n + ","
  {
    assert (ns + [n])[..|ns|] == ns;
  }

  lemma TerminatedEmpty(ns: seq<string>)
    ensures Terminated(ns) == "" <==> ns == []
  {
    if ns != [] {
      assert Terminated(ns)[|Terminated(ns)| - 1] == ',';
    }
  }

  /** allStrings(bitmask): the registered names of the keys set in the mask,
      visited in the key set's order, joined by commas; "" when none is set. */
  method AllStrings(mask: Mask, order: seq<nat>) returns (value: string)
    requires KeyOrder(order)
    ensures value == JoinWith(NamesOf(SetBits(order, mask)), ",")
  {
    value := "";
    for i := 0 to |order|
      invariant value == Terminated(NamesOf(SetBits(order[..i], mask)))
    {
      var name := MaskedKeyName(mask, order[i]);
      TerminatedStep(order, i, mask);
      if name.Some? {
        value := value + name.value + ",";
      }
    }
    assert order[..|order|] == order;
    TerminatedTrim(NamesOf(SetBits(order, mask)));
    if value != "" {
      value := value[..|value| - 1];
    }
  }

  /** One key more: its name and a comma when its bit is set, nothing otherwise. */
  lemma TerminatedStep(order: seq<nat>, i: nat, mask: Mask)
    requires i < |order| && forall k :: 0 <= k < |order| ==> order[k] < Count
    ensures MaskedKeyName(mask, order[i]).Some? ==>
      Terminated(NamesOf(SetBits(order[..i + 1], mask))) ==
      Terminated(NamesOf(SetBits(order[..i], mask))) + MaskedKeyName(mask, order[i]).value + ","
    ensures MaskedKeyName(mask, order[i]).None? ==>
      Terminated(NamesOf(SetBits(order[..i + 1], mask))) == Terminated(NamesOf(SetBits(order[..i], mask)))
  {
    var p, x := order[..i], order[i];
    assert order[..i + 1] == p + [x];
    SetBitsSnoc(p, x, mask);
    var ns := NamesOf(SetBits(p, mask));
    if HasBit(mask, x) {
      TerminatedSnoc(ns, MaskName(x));
    } else {
      assert ns + [] == ns;
    }
  }

  /** The comma-terminated list without its last character is the joined list;
      an empty one is the empty list. */
  lemma TerminatedTrim(ns: seq<string>)
    ensures Terminated(ns) == "" ==> JoinWith(ns, ",") == ""
    ensures Terminated(ns) != "" ==> Terminated(ns)[..|Terminated(ns)| - 1] == JoinWith(ns, ",")
  {
    TerminatedEmpty(ns);
    if ns != [] {
      TerminatedJoin(ns);
      var j := JoinWith(ns, ",");
      assert (j + ",")[..|j|] == j;
    }
  }

  /** One round of allStrings: `key &= bitmask` then the table lookup, which
      names the key when its bit is set and finds nothing otherwise. */
  function MaskedKeyName(mask: Mask, x: nat): (r: Option<string>)
    requires x < Count
    ensures r == if HasBit(mask, x) then Some(MaskName(x)) else None
  {
    var key := Bit(x) * mask;
    if HasBit(mask, x) then
      assert key == Bit(x);
      String(key)
    else
      assert key == {};
      assert forall i :: 0 <= i < Count ==> i in Bit(i);
      String(key)
  }

  lemma SetBitsSnoc(p: seq<nat>, x: nat, mask: Mask)
    requires x < Count && forall k :: 0 <= k < |p| ==> p[k] < Count
    ensures NamesOf(SetBits(p + [x], mask)) ==
      NamesOf(SetBits(p, mask)) + (if HasBit(mask, x) then [MaskName(x)] else [])
  {
    assert (p + [x])[..|p|] == p;
    if HasBit(mask, x) {
      var q := SetBits(p, mask);
      assert SetBits(p + [x], mask) == q + [x];
      assert (q + [x])[..|q|] == q;
    }
  }

  /** A name appears in allStrings' list exactly when a key naming it is set:
      every set registered bit is listed once, nothing else is. */
  lemma AllStringsExact(mask: Mask, order: seq<nat>, i: nat)
    requires KeyOrder(order) && i < Count
    ensures i in SetBits(order, mask) <==> HasBit(mask, i)
    ensures multiset(SetBits(order, mask))[i] <= 1
  {
    SetBitsMembers(order, mask);
    SetBitsDistinct(order, mask);
  }

  lemma {:induction false} SetBitsDistinct(order: seq<nat>, mask: Mask)
    requires forall k :: 0 <= k < |order| ==> order[k] < Count
    requires forall k, l :: 0 <= k < l < |order| ==> order[k] != order[l]
    ensures forall x :: multiset(SetBits(order, mask))[x] <= 1
  {
    if order != [] {
      var p := order[..|order| - 1];
      SetBitsDistinct(p, mask);
      var x := order[|order| - 1];
      assert x !in p;
      SetBitsMembers(p, mask);
      assert x !in SetBits(p, mask);
    }
  }
}

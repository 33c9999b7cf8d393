/** Static helpers of the DICOM toolkit: date packing, age-string validation,
    tag-path navigation through nested sequences, the VR code's two characters,
    patient keys and the index of the largest magnitude. */
module DicomUtils {
  import opened JavaText

  // ================================================================ DA dates

  /** The NumberFormatException dateToInt raises. */
  datatype NumberFormat = NumberFormat

  /** dateToInt: an 8-character DA value packed as year*10000 + month*100 + day;
      any other length, or a part that is not an integer, is refused. */
  function DateToInt(date: string): (r: Result<int, NumberFormat>)
    ensures |date| != 8 ==> r.Err?
    ensures r.Ok? <==>
      |date| == 8 && ParseInt(date[..4], 10).Some? &&
      ParseInt(date[4..6], 10).Some? && ParseInt(date[6..], 10).Some?
  {
    if |date| != 8 then Err(NumberFormat)
    else
      var year := ParseInt(date[..4], 10);
      var month := ParseInt(date[4..6], 10);
      var day := ParseInt(date[6..], 10);
      if year.None? || month.None? || day.None? then Err(NumberFormat)
      else Ok(year.value * 10000 + month.value * 100 + day.value)
  }

  /** A date written with eight ASCII digits. */
  predicate DigitDate(date: string) { |date| == 8 && AllDigits(date, 10) }

  lemma ParseDigits(s: string)
    requires |s| > 0 && AllDigits(s, 10)
    ensures ParseInt(s, 10) == (if IsInt32(DigitsValue(s, 10)) then Some(DigitsValue(s, 10)) else None)
  {
    assert DigitValue(s[0], 10).Some?;
  }

  lemma {:induction false} DigitsValueBound(s: string)
    requires AllDigits(s, 10)
    ensures DigitsValue(s, 10) < Pow10(|s|)
  {
    if s != [] {
      DigitsValueBound(s[..|s| - 1]);
    }
  }

  function Pow10(n: nat): (p: nat)
    ensures p >= 1
  {
    if n == 0 then 1 else 10 * Pow10(n - 1)
  }

  /** For an all-digit date the packed value decodes back into the year, month and
      day digits it was made of. */
  lemma DateToIntDecodes(date: string)
    requires DigitDate(date)
    ensures DateToInt(date).Ok?
    ensures var r := DateToInt(date).value;
      r / 10000 == DigitsValue(date[..4], 10) &&
      (r / 100) % 100 == DigitsValue(date[4..6], 10) &&
      r % 100 == DigitsValue(date[6..], 10)
  {
    var y, m, d := date[..4], date[4..6], date[6..];
    DateParts(date);
    ShortDigits(y);
    ShortDigits(m);
    ShortDigits(d);
    var yv, mv, dv := DigitsValue(y, 10), DigitsValue(m, 10), DigitsValue(d, 10);
    assert DateToInt(date) == Ok(yv * 10000 + mv * 100 + dv);
    PackDecodes(yv, mv, dv);
  }

  /** At most four digits parse to their value, which is below 10^length. */
  lemma ShortDigits(s: string)
    requires 0 < |s| <= 4 && AllDigits(s, 10)
    ensures ParseInt(s, 10) == Some(DigitsValue(s, 10))
    ensures DigitsValue(s, 10) < Pow10(|s|) <= 10000
  {
    DigitsValueBound(s);
    assert Pow10(1) == 10 && Pow10(2) == 100 && Pow10(3) == 1000 && Pow10(4) == 10000;
    ParseDigits(s);
  }

  /** year*10000 + month*100 + day gives back its parts when month and day have
      two digits. */
  lemma PackDecodes(yv: nat, mv: nat, dv: nat)
    requires mv < 100 && dv < 100
    ensures (yv * 10000 + mv * 100 + dv) / 10000 == yv
    ensures ((yv * 10000 + mv * 100 + dv) / 100) % 100 == mv
    ensures (yv * 10000 + mv * 100 + dv) % 100 == dv
  {
    var r := yv * 10000 + mv * 100 + dv;
    assert r / 100 == yv * 100 + mv;
  }

  /** Two all-digit dates pack to the same integer only when they are equal. */
  lemma DateToIntInjective(a: string, b: string)
    requires DigitDate(a) && DigitDate(b) && DateToInt(a) == DateToInt(b)
    ensures a == b
  {
    DateToIntDecodes(a);
    DateToIntDecodes(b);
    DateParts(a);
    DateParts(b);
    DigitsInjective(a[..4], b[..4]);
    DigitsInjective(a[4..6], b[4..6]);
    DigitsInjective(a[6..], b[6..]);
  }

  /** The year, month and day slices of an all-digit date. */
  lemma DateParts(date: string)
    requires DigitDate(date)
    ensures AllDigits(date[..4], 10) && AllDigits(date[4..6], 10) && AllDigits(date[6..], 10)
    ensures date == date[..4] + date[4..6] + date[6..]
  {
  }

  /** Equal-length digit strings with equal value are equal. */
  lemma {:induction false} DigitsInjective(a: string, b: string)
    requires |a| == |b| && AllDigits(a, 10) && AllDigits(b, 10)
    requires DigitsValue(a, 10) == DigitsValue(b, 10)
    ensures a == b
  {
    if a != [] {
      var n := |a| - 1;
      var da, db := DigitValue(a[n], 10).value, DigitValue(b[n], 10).value;
      assert da == DigitsValue(a, 10) % 10 && db == DigitsValue(b, 10) % 10;
      DigitsInjective(a[..n], b[..n]);
      DigitInjective(a[n], b[n]);
      assert a == a[..n] + [a[n]] && b == b[..n] + [b[n]];
    }
  }

  lemma DigitInjective(x: char, y: char)
    requires DigitValue(x, 10).Some? && DigitValue(y, 10).Some? && DigitValue(x, 10) == DigitValue(y, 10)
    ensures x == y
  {
  }

  // ================================================================ AS ages

  predicate IsAgeUnit(s: string) { s == "D" || s == "W" || s == "M" || s == "Y" }

  /** isValidAgeString as written: after trimming, four characters whose first two
      parse as an int (a sign is allowed) and whose last is D, W, M or Y; the third
      character is never looked at. */
  function IsValidAgeString(age: Option<string>): (ok: bool)
    ensures ok <==> age.Some? && |Trim(age.value)| == 4 && ParseInt(Trim(age.value)[..2], 10).Some?
                    && IsAgeUnit(Trim(age.value)[3..])
  {
    if age.None? then false
    else
      var trimmed := Trim(age.value);
      if |trimmed| != 4 then false
      else if ParseInt(trimmed[..2], 10).None? then false
      else IsAgeUnit(trimmed[3..])
  }

  /** An age string of the AS value representation: three digits and a unit. */
  predicate ConformingAge(s: string)
  {
    |s| == 4 && AllDigits(s[..3], 10) && IsAgeUnit(s[3..])
  }

  lemma TrimOfConformingAge(s: string)
    requires ConformingAge(s)
    ensures Trim(s) == s
  {
    assert s[..3][0] == s[0];
    assert DigitValue(s[0], 10).Some?;
    assert s[3..] == [s[3]];
    TrimOfPrintable(s);
  }

  /** Two ASCII digits always parse as an int. */
  lemma ParseTwoDigits(t: string)
    requires |t| == 2 && AllDigits(t, 10)
    ensures ParseInt(t, 10).Some?
  {
    assert t[0] != '-' && t[0] != '+' by { assert DigitValue(t[0], 10).Some?; }
    DigitsValueBound(t);
    assert Pow10(2) == 100;
  }

  /** Every conforming age, possibly padded with spaces, is accepted. */
  lemma ConformingAgeAccepted(s: string)
    requires ConformingAge(Trim(s))
    ensures IsValidAgeString(Some(s))
  {
    var a := Trim(s);
    var t := a[..2];
    assert AllDigits(t, 10) by {
      forall i | 0 <= i < 2 ensures DigitValue(t[i], 10).Some? {
        assert t[i] == a[..3][i];
      }
    }
    ParseTwoDigits(t);
    assert ParseInt(t, 10).Some?;
    AcceptedWhen(s, a);
  }

  /** "12XY" is accepted as written although its third character is no digit, and
      "-1 Y" because parseInt takes the sign. */
  lemma AgeStringCounterexample()
    ensures IsValidAgeString(Some("12XY")) && !ConformingAge("12XY")
    ensures IsValidAgeString(Some("-1 Y")) && !ConformingAge("-1 Y")
  {
    TwelveXYAccepted();
    MinusOneYAccepted();
  }

  lemma TwelveXYAccepted()
    ensures IsValidAgeString(Some("12XY")) && !ConformingAge("12XY")
  {
    var a := "12XY";
    assert a[..2] == "12" && a[3..] == "Y";
    assert AllDigits("12", 10) by { assert DigitValue('1', 10).Some? && DigitValue('2', 10).Some?; }
    ParseTwoDigits("12");
    PrintableAccepted(a);
    assert a[..3][2] == 'X' && DigitValue('X', 10).None?;
  }

  lemma MinusOneYAccepted()
    ensures IsValidAgeString(Some("-1 Y")) && !ConformingAge("-1 Y")
  {
    var b := "-1 Y";
    assert b[..2] == "-1" && b[3..] == "Y";
    ParseMinusOne();
    PrintableAccepted(b);
    assert b[..3][0] == '-' && DigitValue('-', 10).None?;
  }

  lemma ParseMinusOne()
    ensures ParseInt("-1", 10) == Some(-1)
  {
    assert "-1"[1..] == "1";
    assert AllDigits("1", 10) by { assert DigitValue('1', 10).Some?; }
    assert DigitsValue("1", 10) == 1 by { assert "1"[..0] == []; }
  }

  /** A four-character age without surrounding blanks is accepted when its first
      two characters parse and its last is a unit. */
  lemma PrintableAccepted(s: string)
    requires |s| == 4 && !IsTrimmed(s[0]) && !IsTrimmed(s[3])
    requires ParseInt(s[..2], 10).Some? && IsAgeUnit(s[3..])
    ensures IsValidAgeString(Some(s))
  {
    TrimOfPrintable(s);
    AcceptedWhen(s, s);
  }

  lemma AcceptedWhen(s: string, t: string)
    requires Trim(s) == t && |t| == 4 && ParseInt(t[..2], 10).Some? && IsAgeUnit(t[3..])
    ensures IsValidAgeString(Some(s))
  {
  }


  lemma TrimOfPrintable(s: string)
    requires |s| > 0 && !IsTrimmed(s[0]) && !IsTrimmed(s[|s| - 1])
    ensures Trim(s) == s
  {
    assert TrimStart(s) == s;
    assert TrimEnd(s) == s;
  }

  /** The age check the AS definition calls for: after trimming, three ASCII digits
      and a unit. */
  function IsValidAgeStringCorrected(age: Option<string>): (ok: bool)
    ensures ok <==> age.Some? && ConformingAge(Trim(age.value))
  {
    age.Some? && ConformingAge(Trim(age.value))
  }

  /** Every age the corrected check accepts is accepted as written as well; the
      converse fails (see AgeStringCounterexample). */
  lemma CorrectedAgeIsStricter(age: Option<string>)
    ensures IsValidAgeStringCorrected(age) ==> IsValidAgeString(age)
  {
    if IsValidAgeStringCorrected(age) {
      ConformingAgeAccepted(age.value);
    }
  }

  // ================================================================ tag paths

  /** A DICOM element: a sequence of nested items, or any other element, for which
      the library reports `itemCount` items and no nested objects. */
  datatype Element = Sq(items: seq<DicomObject>) | Other(itemCount: int)

  /** A data set: elements by tag. */
  datatype DicomObject = DicomObject(elements: map<int, Element>)

  function CountItems(e: Element): int
  {
    match e
    case Sq(items) => |items|
    case Other(n) => n
  }

  /** The item one (tag, index) step leads to, or None when the element is
      missing, not a sequence, or the index is out of its range. */
  function Descend(dcm: DicomObject, tag: int, idx: int): (r: Option<DicomObject>)
    ensures r.Some? <==>
      tag in dcm.elements && dcm.elements[tag].Sq? && 0 <= idx < |dcm.elements[tag].items|
  {
    if tag !in dcm.elements then None
    else
      var e := dcm.elements[tag];
      if idx < 0 || idx >= CountItems(e) || !e.Sq? then None
      else Some(e.items[idx])
  }

  /** Number of items of `tag` in `dcm`, -1 when absent. */
  function CountAt(dcm: DicomObject, tag: int): int
  {
    if tag in dcm.elements then CountItems(dcm.elements[tag]) else -1
  }

  /** The item count at the end of a tag path: walk pairs k..stop-1 of `path`
      (pair k is path[2k], path[2k+1]) from `dcm`, then count the last tag. */
  function CountFrom(dcm: DicomObject, path: seq<int>, k: nat, stop: nat): int
    requires 2 * stop < |path|
    decreases stop - k
  {
    if k >= stop then CountAt(dcm, path[|path| - 1])
    else match Descend(dcm, path[2 * k], path[2 * k + 1])
      case None => -1
      case Some(item) => CountFrom(item, path, k + 1, stop)
  }

  /** How the path helpers fail: BadPathLength and NegativeIndex are the
      IllegalArgumentExceptions they throw; NotASequence is create mode meeting
      an element that is not a sequence, where dcm4che's item calls throw. */
  datatype PathError = BadPathLength | NegativeIndex | NotASequence

  /** getSequenceItemCount as written: the loop `for (i = 0; i < nLevels - 1;
      i++, i++)` reads tagPath[i] and tagPath[i + 1], so it walks only pairs
      0 .. nLevels/2 - 1 before counting the last tag. */
  method GetSequenceItemCount(dcm: DicomObject, tagPath: Option<seq<int>>) returns (r: Result<int, PathError>)
    ensures tagPath.None? || |tagPath.value| % 2 == 0 <==> r == Err(BadPathLength)
    ensures r.Ok? ==> r.value == CountFrom(dcm, tagPath.value, 0, |tagPath.value| / 2 / 2)
  {
    if tagPath.None? || |tagPath.value| % 2 == 0 {
      return Err(BadPathLength);
    }
    var path := tagPath.value;
    var cur := dcm;
    var nLevels := |path| / 2;
    var i := 0;
    while i < nLevels - 1
      invariant i % 2 == 0 && 0 <= i <= nLevels + 1 && (i > 0 ==> i <= nLevels)
      invariant CountFrom(dcm, path, 0, nLevels / 2) == CountFrom(cur, path, i / 2, nLevels / 2)
    {
      var sqTag, sqIdx := path[i], path[i + 1];
      if sqTag !in cur.elements || sqIdx < 0 || sqIdx >= CountItems(cur.elements[sqTag]) ||
         !cur.elements[sqTag].Sq? {
        return Ok(-1);
      }
      cur := cur.elements[sqTag].items[sqIdx];
      i := i + 2;
    }
    return Ok(CountAt(cur, path[|path| - 1]));
  }

  /** getSequenceItemCount as documented: walk every (tag, index) pair, then count
      the items of the last tag, -1 when any step or the last tag is missing. */
  method GetSequenceItemCountCorrected(dcm: DicomObject, tagPath: Option<seq<int>>)
    returns (r: Result<int, PathError>)
    ensures tagPath.None? || |tagPath.value| % 2 == 0 <==> r == Err(BadPathLength)
    ensures r.Ok? ==> r.value == CountFrom(dcm, tagPath.value, 0, |tagPath.value| / 2)
  {
    if tagPath.None? || |tagPath.value| % 2 == 0 {
      return Err(BadPathLength);
    }
    var path := tagPath.value;
    var cur := dcm;
    var nLevels := |path| / 2;
    var i := 0;
    while i < nLevels
      invariant 0 <= i <= nLevels
      invariant CountFrom(dcm, path, 0, nLevels) == CountFrom(cur, path, i, nLevels)
    {
      var sqTag, sqIdx := path[2 * i], path[2 * i + 1];
      if sqTag !in cur.elements || sqIdx < 0 || sqIdx >= CountItems(cur.elements[sqTag]) ||
         !cur.elements[sqTag].Sq? {
        return Ok(-1);
      }
      cur := cur.elements[sqTag].items[sqIdx];
      i := i + 1;
    }
    return Ok(CountAt(cur, path[|path| - 1]));
  }

  /** A data set whose sequence 1 holds one item, which holds a sequence 2 of two
      items; the top level has no element 2. */
  function NestedExample(): DicomObject
  {
    var inner := DicomObject(map[2 := Sq([DicomObject(map[]), DicomObject(map[])])]);
    DicomObject(map[1 := Sq([inner])])
  }

  /** For the path [1, 0, 2] the loop as written walks no pair and finds no element
      2 at the top level; walking every pair finds its two items. */
  lemma ItemCountCounterexample()
    ensures CountFrom(NestedExample(), [1, 0, 2], 0, 3 / 2 / 2) == -1
    ensures CountFrom(NestedExample(), [1, 0, 2], 0, 3 / 2) == 2
  {
    var inner := DicomObject(map[2 := Sq([DicomObject(map[]), DicomObject(map[])])]);
    assert Descend(NestedExample(), 1, 0) == Some(inner);
  }

  /** The item at the end of a tag path of pairs k..n-1: a negative index reached
      raises; a missing element, an index past the end or a non-sequence gives
      None (null). */
  function ObjectFrom(dcm: DicomObject, path: seq<int>, k: nat, n: nat): (r: Result<Option<DicomObject>, PathError>)
    requires 2 * n <= |path|
    ensures r.Err? ==> r.error == NegativeIndex
    decreases n - k
  {
    if k >= n then Ok(Some(dcm))
    else if path[2 * k + 1] < 0 then Err(NegativeIndex)
    else match Descend(dcm, path[2 * k], path[2 * k + 1])
      case None => Ok(None)
      case Some(item) => ObjectFrom(item, path, k + 1, n)
  }

  /** getSequenceObject(dcm, tagPath): an odd-length or null path is refused;
      otherwise the item the whole path leads to. */
  method GetSequenceObject(dcm: DicomObject, tagPath: Option<seq<int>>)
    returns (r: Result<Option<DicomObject>, PathError>)
    ensures tagPath.None? || |tagPath.value| % 2 == 1 <==> r == Err(BadPathLength)
    ensures r != Err(BadPathLength) ==> r == ObjectFrom(dcm, tagPath.value, 0, |tagPath.value| / 2)
  {
    if tagPath.None? || |tagPath.value| % 2 == 1 {
      return Err(BadPathLength);
    }
    var path := tagPath.value;
    var cur := dcm;
    var nLevels := |path| / 2;
    var i := 0;
    while i < nLevels
      invariant 0 <= i <= nLevels
      invariant ObjectFrom(dcm, path, 0, nLevels) == ObjectFrom(cur, path, i, nLevels)
    {
      var sqTag, sqIdx := path[2 * i], path[2 * i + 1];
      if sqIdx < 0 {
        return Err(NegativeIndex);
      }
      if sqTag !in cur.elements || sqIdx >= CountItems(cur.elements[sqTag]) || !cur.elements[sqTag].Sq? {
        return Ok(None);
      }
      cur := cur.elements[sqTag].items[sqIdx];
      i := i + 1;
    }
    return Ok(Some(cur));
  }

  /** The sequence's items padded with empty data sets up to index `idx`. */
  function Pad(items: seq<DicomObject>, idx: nat): (r: seq<DicomObject>)
    ensures |r| == if idx < |items| then |items| else idx + 1
    ensures r[..|items|] == items
    ensures forall j :: |items| <= j < |r| ==> r[j] == DicomObject(map[])
    decreases idx + 1 - |items|
  {
    if idx < |items| then items else Pad(items + [DicomObject(map[])], idx)
  }

  /** getSequenceObject(dcm, tagPath, true) on pairs k..n-1: a missing element
      becomes an empty sequence, a sequence shorter than the index is padded with
      empty items, then the walk goes on into the item. Yields the updated data
      set and the item reached. */
  function CreateFrom(dcm: DicomObject, path: seq<int>, k: nat, n: nat): (r: Result<(DicomObject, DicomObject), PathError>)
    requires 2 * n <= |path|
    ensures r.Err? ==> r.error != BadPathLength
    decreases n - k
  {
    if k >= n then Ok((dcm, dcm))
    else
      var tag, idx := path[2 * k], path[2 * k + 1];
      if idx < 0 then Err(NegativeIndex)
      else
        var e := if tag in dcm.elements then dcm.elements[tag] else Sq([]);
        if !e.Sq? then Err(NotASequence)
        else
          var items := Pad(e.items, idx);
          match CreateFrom(items[idx], path, k + 1, n)
          case Err(x) => Err(x)
          case Ok((child, item)) =>
            Ok((DicomObject(dcm.elements[tag := Sq(items[idx := child])]), item))
  }

  /** After creation, looking the path up again in the updated data set finds the
      created item, and every sequence along the path holds the index asked for. */
  lemma {:induction false} CreateThenGet(dcm: DicomObject, path: seq<int>, k: nat, n: nat)
    requires 2 * n <= |path| && k <= n
    requires CreateFrom(dcm, path, k, n).Ok?
    ensures var (updated, item) := CreateFrom(dcm, path, k, n).value;
      ObjectFrom(updated, path, k, n) == Ok(Some(item))
    decreases n - k
  {
    if k < n {
      var tag, idx := path[2 * k], path[2 * k + 1];
      var e := if tag in dcm.elements then dcm.elements[tag] else Sq([]);
      var items := Pad(e.items, idx);
      CreateThenGet(items[idx], path, k + 1, n);
      var (child, item) := CreateFrom(items[idx], path, k + 1, n).value;
      var updated := DicomObject(dcm.elements[tag := Sq(items[idx := child])]);
      assert Descend(updated, tag, idx) == Some(child);
    }
  }

  /** A path that already leads to an item is found unchanged by creation: the
      data set is left as it was and the same item is returned. */
  lemma {:induction false} CreateExisting(dcm: DicomObject, path: seq<int>, k: nat, n: nat, item: DicomObject)
    requires 2 * n <= |path| && k <= n
    requires ObjectFrom(dcm, path, k, n) == Ok(Some(item))
    ensures CreateFrom(dcm, path, k, n) == Ok((dcm, item))
    decreases n - k
  {
    if k < n {
      var tag, idx := path[2 * k], path[2 * k + 1];
      var e := dcm.elements[tag];
      var next := Descend(dcm, tag, idx).value;
      CreateExisting(next, path, k + 1, n, item);
      assert Pad(e.items, idx) == e.items;
      assert e.items[idx := next] == e.items;
      assert dcm.elements[tag := Sq(e.items)] == dcm.elements;
    }
  }

  /** Creation changes nothing off the path: at the level it starts from, every
      other element keeps its value, and in the sequence it walks into every
      item other than the one at the index is kept. */
  lemma CreateFrame(dcm: DicomObject, path: seq<int>, k: nat, n: nat)
    requires 2 * n <= |path| && k < n
    requires CreateFrom(dcm, path, k, n).Ok?
    ensures var updated := CreateFrom(dcm, path, k, n).value.0;
      var tag, idx := path[2 * k], path[2 * k + 1];
      updated.elements.Keys == dcm.elements.Keys + {tag} &&
      (forall t :: t in dcm.elements && t != tag ==> updated.elements[t] == dcm.elements[t]) &&
      updated.elements[tag].Sq? &&
      (tag in dcm.elements ==>
        dcm.elements[tag].Sq? && |dcm.elements[tag].items| <= |updated.elements[tag].items| &&
        forall j :: 0 <= j < |dcm.elements[tag].items| && j != idx ==>
          updated.elements[tag].items[j] == dcm.elements[tag].items[j])
  {
    var tag, idx := path[2 * k], path[2 * k + 1];
    var e := if tag in dcm.elements then dcm.elements[tag] else Sq([]);
    var items := Pad(e.items, idx);
    assert items[..|e.items|] == e.items;
    forall j | 0 <= j < |e.items| ensures items[j] == e.items[j] {
      assert items[..|e.items|][j] == items[j];
    }
  }

  /** getSequenceObject(dcm, tagPath, create): without create, the plain lookup
      with its results and errors; with create, the item reached after creating
      what is missing, which the updated data set then holds at that path. */
  function GetSequenceObjectCreate(dcm: DicomObject, tagPath: Option<seq<int>>, create: bool)
    : (r: Result<(DicomObject, Option<DicomObject>), PathError>)
    ensures r == Err(BadPathLength) <==> tagPath.None? || |tagPath.value| % 2 == 1
    ensures create && r.Ok? ==>
      r.value.1.Some? && ObjectFrom(r.value.0, tagPath.value, 0, |tagPath.value| / 2) == Ok(r.value.1)
    ensures !create && r.Ok? ==> r.value.0 == dcm
    ensures !create && r != Err(BadPathLength) ==>
      ObjectFrom(dcm, tagPath.value, 0, |tagPath.value| / 2) == (if r.Ok? then Ok(r.value.1) else Err(r.error))
    ensures create && r.Err? && r != Err(BadPathLength) ==>
      CreateFrom(dcm, tagPath.value, 0, |tagPath.value| / 2) == Err(r.error)
  {
    if tagPath.None? || |tagPath.value| % 2 == 1 then Err(BadPathLength)
    else if !create then
      match ObjectFrom(dcm, tagPath.value, 0, |tagPath.value| / 2)
      case Err(x) => Err(x)
      case Ok(found) => Ok((dcm, found))
    else
      var path := tagPath.value;
      match CreateFrom(dcm, path, 0, |path| / 2)
      case Err(x) => Err(x)
      case Ok((updated, item)) =>
        CreateThenGet(dcm, path, 0, |path| / 2);
        Ok((updated, Some(item)))
  }

  // ================================================================ VR code

  /** Java's (char) of a byte: negative bytes sign-extend into 0xFF80..0xFFFF. */
  function ByteChar(b: int): (c: char)
    requires -128 <= b < 128
    ensures b >= 0 ==> c as int == b
    ensures b < 0 ==> c as int == b + 0x1_0000
  {
    if b >= 0 then b as char else (b + 0x1_0000) as char
  }

  /** Java's (byte) narrowing of an int in [0, 255]. */
  function ToByte(x: int): (b: int)
    requires 0 <= x < 256
    ensures -128 <= b < 128 && (b - x) % 256 == 0
  {
    if x < 128 then x else x - 256
  }

  /** vrCodeAsString: the high byte of the 16-bit code, then the low byte, each
      widened to a char through Java's signed byte. */
  function VrCodeAsString(code: int): (s: string)
    requires 0 <= code
    ensures |s| == 2
    ensures var hi, lo := (code / 256) % 256, code % 256;
      s[0] as int == (if hi < 128 then hi else hi + 0xFF00) &&
      s[1] as int == (if lo < 128 then lo else lo + 0xFF00)
  {
    var b1 := ToByte((code / 256) % 256);
    var b2 := ToByte(code % 256);
    [ByteChar(b1), ByteChar(b2)]
  }

  /** The code of a VR named by two ASCII letters. */
  function VrCode(name: string): int
    requires |name| == 2
  {
    name[0] as int * 256 + name[1] as int
  }

  /** Naming a VR by its code gives back its two-letter name. */
  lemma VrCodeRoundTrip(name: string)
    requires |name| == 2 && name[0] < 128 as char && name[1] < 128 as char
    ensures VrCodeAsString(VrCode(name)) == name
  {
    var code := VrCode(name);
    assert code / 256 == name[0] as int;
    assert code % 256 == name[1] as int;
  }

  // ================================================================ patient keys

  /** makePatientKey(Patient): name, birth date and ID joined by '_'. */
  function MakePatientKey(name: string, birthDate: string, id: string): (r: string)
    ensures |r| == |name| + |birthDate| + |id| + 2
    ensures r[..|name|] == name && r[|name|] == '_' && r[|r| - |id|..] == id
  {
    name + "_" + birthDate + "_" + id
  }

  /** Keys of patients whose names hold no '_' and whose birth dates are 8
      characters without '_' are equal only for equal name, birth date and ID. */
  lemma PatientKeyInjective(n1: string, b1: string, i1: string, n2: string, b2: string, i2: string)
    requires '_' !in n1 && '_' !in n2 && |b1| == 8 && |b2| == 8
    requires MakePatientKey(n1, b1, i1) == MakePatientKey(n2, b2, i2)
    ensures n1 == n2 && b1 == b2 && i1 == i2
  {
    var k := MakePatientKey(n1, b1, i1);
    KeyNameEnds(n1, b1, i1);
    KeyNameEnds(n2, b2, i2);
    assert n1 == k[..|n1|] && n2 == k[..|n2|];
    assert b1 == k[|n1| + 1..|n1| + 9] && b2 == k[|n2| + 1..|n2| + 9];
    assert i1 == k[|n1| + 10..] && i2 == k[|n2| + 10..];
  }

  lemma KeyNameEnds(n: string, b: string, i: string)
    requires '_' !in n
    ensures IndexOfChar(MakePatientKey(n, b, i), '_') == |n|
  {
    var k := MakePatientKey(n, b, i);
    assert k[|n|] == '_';
    assert forall j :: 0 <= j < |n| ==> k[j] == n[j];
  }

  /** makePatientKey(SopInstance): spaces in the name become '_' (a missing name
      is empty), a missing or empty birth date becomes "00000000", a missing ID is
      empty. */
  function MakeInstancePatientKey(name: Option<string>, birthDate: Option<string>, id: Option<string>): (k: string)
    ensures k == MakePatientKey(
      if name.Some? then ReplaceChar(name.value, ' ', '_') else "",
      if birthDate.None? || birthDate.value == "" then "00000000" else birthDate.value,
      if id.Some? then id.value else "")
  {
    var patName := if name.None? then "" else ReplaceChar(name.value, ' ', '_');
    var birth := if birthDate.None? || birthDate.value == "" then "00000000" else birthDate.value;
    var patId := if id.None? then "" else id.value;
    patName + "_" + birth + "_" + patId
  }

  /** An instance key never holds a space in its name part, and an instance
      without a birth date gets the same key as one dated "00000000". */
  lemma InstanceKeyDefaults(name: Option<string>, id: Option<string>)
    ensures MakeInstancePatientKey(name, None, id) == MakeInstancePatientKey(name, Some(""), id)
      == MakeInstancePatientKey(name, Some("00000000"), id)
    ensures name.Some? ==> ' ' !in ReplaceChar(name.value, ' ', '_')
  {
  }

  // ================================================================ findIndexOfMax

  function Abs(x: real): real { if x < 0.0 then -x else x }

  /** findIndexOfMax: -1 for a missing or empty array, otherwise the first index
      of the largest magnitude. */
  method FindIndexOfMax(arr: Option<seq<real>>) returns (idx: int)
    ensures arr.None? || |arr.value| == 0 <==> idx == -1
    ensures idx != -1 ==>
      0 <= idx < |arr.value| &&
      (forall j :: 0 <= j < |arr.value| ==> Abs(arr.value[j]) <= Abs(arr.value[idx])) &&
      (forall j :: 0 <= j < idx ==> Abs(arr.value[j]) < Abs(arr.value[idx]))
  {
    if arr.None? || |arr.value| == 0 {
      return -1;
    }
    var a := arr.value;
    if |a| == 1 {
      return 0;
    }
    idx := 0;
    var max := Abs(a[0]);
    var i := 1;
    while i < |a|
      invariant 1 <= i <= |a| && 0 <= idx < i && max == Abs(a[idx])
      invariant forall j :: 0 <= j < i ==> Abs(a[j]) <= max
      invariant forall j :: 0 <= j < idx ==> Abs(a[j]) < max
    {
      var test := Abs(a[i]);
      if test > max {
        idx := i;
        max := test;
      }
      i := i + 1;
    }
  }
}

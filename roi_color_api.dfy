/** The validation of a project's ROI colour list before it is stored: every
    entry needs a label and a colour of three comma-separated integers, each
    within [0, 255]. */
module RoiColorApi {
  import opened JavaText

  /** One entry of the request body; a missing JSON field is null. */
  datatype RoiColor = RoiColor(name: Option<string>, color: Option<string>)

  /** How parseRoiColorList fails. The first three become an IllegalArgument
      PluginException; NullColor is the NullPointerException that splitting a
      null colour raises, which nothing catches. */
  datatype ColorError = EmptyLabel | NotThreeValues | ValueOutOfRange | NullColor

  /** Integer.parseInt(part.trim()): whitespace and control characters
      dropped from both ends, then the rest read as a decimal int; None is the
      NumberFormatException. */
  function PartValue(part: string): (v: Option<int>)
    ensures v.Some? ==> IsInt32(v.value)
    decreases |part|
  {
    if part != [] && IsTrimmed(part[0]) then PartValue(part[1..])
    else if part != [] && IsTrimmed(part[|part| - 1]) then PartValue(part[..|part| - 1])
    else ParseInt(part, 10)
  }

  /** PartValue is trimming followed by parsing. */
  lemma {:induction false} PartValueIsTrimParse(part: string)
    ensures PartValue(part) == ParseInt(Trim(part), 10)
    decreases |part|
  {
    if part != [] && IsTrimmed(part[0]) {
      PartValueIsTrimParse(part[1..]);
      assert TrimStart(part) == TrimStart(part[1..]);
    } else if part != [] && IsTrimmed(part[|part| - 1]) {
      var init := part[..|part| - 1];
      PartValueIsTrimParse(init);
      assert TrimStart(part) == part;
      assert TrimEnd(part) == TrimEnd(init);
      if init != [] {
        assert init[0] == part[0];
      }
      assert TrimStart(init) == init;
    } else {
      assert TrimStart(part) == part;
      assert TrimEnd(part) == part;
    }
  }

  /** Integer.parseInt(part.trim()) of each part in turn. */
  function PartValues(parts: seq<string>): (vs: seq<Option<int>>)
    ensures |vs| == |parts|
  {
    if parts == [] then []
    else PartValues(parts[..|parts| - 1]) + [PartValue(parts[|parts| - 1])]
  }

  /** Every value parsed and within [0, 255]. */
  predicate InRange(vs: seq<Option<int>>)
  {
    forall k :: 0 <= k < |vs| ==> vs[k].Some? && 0 <= vs[k].value <= 255
  }

  /** The parts of a colour: String.split(","). */
  function Parts(color: string): seq<string>
  {
    JavaSplit(color, ",")
  }

  /** A colour the source accepts: three parts, each an int within [0, 255]. */
  predicate ValidColor(color: string)
  {
    |Parts(color)| == 3 && InRange(PartValues(Parts(color)))
  }

  /** Why one entry is refused, checked in the order the source checks: the
      label, then the colour's presence, its number of parts, their values. */
  function EntryError(c: RoiColor): (e: Option<ColorError>)
    ensures c.name.None? || c.name.value == [] ==> e == Some(EmptyLabel)
    ensures e.None? <==> (c.name.Some? && c.name.value != [] && c.color.Some? && ValidColor(c.color.value))
  {
    if c.name.None? || c.name.value == [] then Some(EmptyLabel)
    else if c.color.None? then Some(NullColor)
    else
      var colors := Parts(c.color.value);
      if |colors| != 3 then Some(NotThreeValues)
      else if InRange(PartValues(colors)) then None
      else Some(ValueOutOfRange)
  }

  /** The error of the first refused entry, if any. */
  function FirstError(list: seq<RoiColor>): (e: Option<ColorError>)
    ensures e.None? <==> forall i :: 0 <= i < |list| ==> EntryError(list[i]).None?
    ensures e.Some? ==>
      (exists i :: 0 <= i < |list| && EntryError(list[i]) == e &&
        forall j :: 0 <= j < i ==> EntryError(list[j]).None?)
  {
    if list == [] then None
    else if EntryError(list[0]).Some? then EntryError(list[0])
    else
      var rest := FirstError(list[1..]);
      assert forall i :: 1 <= i < |list| ==> list[i] == list[1..][i - 1];
      rest
  }

  /** parseRoiColorList: the entries checked in order, the first refused one
      ending the request; a list with no refused entry is serialised as it is. */
  method ParseRoiColorList(list: seq<RoiColor>) returns (r: Result<seq<RoiColor>, ColorError>)
    ensures r.Ok? <==> FirstError(list).None?
    ensures r.Ok? ==> r.value == list
    ensures r.Err? ==> Some(r.error) == FirstError(list)
  {
    for i := 0 to |list|
      invariant FirstError(list) == FirstError(list[i..])
    {
      assert list[i..][1..] == list[i + 1..];
      var roiColor := list[i];
      if roiColor.name.None? || roiColor.name.value == [] {
        return Err(EmptyLabel);
      }
      if roiColor.color.None? {
        return Err(NullColor);
      }
      var colors := Parts(roiColor.color.value);
      if |colors| != 3 {
        return Err(NotThreeValues);
      }
      var ok := CheckComponents(colors);
      if !ok {
        return Err(ValueOutOfRange);
      }
    }
    return Ok(list);
  }

  /** The inner loop: each part trimmed and parsed; false at the first part
      that is not an int or lies outside [0, 255]. */
  method CheckComponents(colors: seq<string>) returns (ok: bool)
    ensures ok <==> InRange(PartValues(colors))
  {
    for k := 0 to |colors|
      invariant InRange(PartValues(colors[..k]))
    {
      var colorValue := ParseInt(Trim(colors[k]), 10);
      PartValueIsTrimParse(colors[k]);
      PartValuesSnoc(colors, k);
      InRangeSnoc(PartValues(colors[..k]), colorValue);
      if colorValue.None? || colorValue.value < 0 || colorValue.value > 255 {
        PartValuesPrefix(colors, k + 1);
        InRangePrefix(PartValues(colors), k + 1);
        return false;
      }
    }
    assert colors[..|colors|] == colors;
    return true;
  }

  /** One more part, one more value. */
  lemma PartValuesSnoc(parts: seq<string>, k: nat)
    requires k < |parts|
    ensures PartValues(parts[..k + 1]) == PartValues(parts[..k]) + [PartValue(parts[k])]
  {
    assert parts[..k + 1][..k] == parts[..k];
  }

  lemma InRangeSnoc(vs: seq<Option<int>>, v: Option<int>)
    ensures InRange(vs + [v]) <==> InRange(vs) && v.Some? && 0 <= v.value <= 255
  {
    assert (vs + [v])[|vs|] == v;
    assert forall k :: 0 <= k < |vs| ==> (vs + [v])[k] == vs[k];
  }

  lemma InRangePrefix(vs: seq<Option<int>>, n: nat)
    requires n <= |vs|
    ensures InRange(vs) ==> InRange(vs[..n])
  {
  }

  /** The values of a prefix of the parts are a prefix of the values. */
  lemma {:induction false} PartValuesPrefix(parts: seq<string>, n: nat)
    requires n <= |parts|
    ensures PartValues(parts[..n]) == PartValues(parts)[..n]
    decreases |parts|
  {
    if n < |parts| {
      PartValuesPrefix(parts[..|parts| - 1], n);
      assert parts[..|parts| - 1][..n] == parts[..n];
    } else {
      assert parts[..n] == parts;
    }
  }

  /** Three pieces without ',', the last not empty, joined with ',' split back
      into those pieces. */
  lemma SplitThree(a: string, b: string, c: string)
    requires ',' !in a && ',' !in b && ',' !in c && c != []
    ensures Parts(a + "," + b + "," + c) == [a, b, c]
  {
    var ps := [a, b, c];
    var s := a + "," + b + "," + c;
    assert s == JoinWith(ps, ",") by {
      JoinWithSnoc([a], ",", b);
      JoinWithSnoc([a, b], ",", c);
      assert [a] + [b] == [a, b] && [a, b] + [c] == ps;
    }
    PiecesOfJoin(ps, ',');
    IndexOfFirstChar(a, ',', b + "," + c);
    assert s == a + [','] + (b + "," + c);
  }

  /** A colour written as three components in range, separated by ",", is
      accepted, whatever its label. */
  lemma WrittenColorAccepted(name: string, r: nat, g: nat, b: nat)
    requires name != [] && r <= 255 && g <= 255 && b <= 255
    ensures EntryError(RoiColor(Some(name), Some(ToRadix(r, 10) + "," + ToRadix(g, 10) + "," + ToRadix(b, 10)))).None?
  {
    var x, y, z := ToRadix(r, 10), ToRadix(g, 10), ToRadix(b, 10);
    DecimalPlain(r);
    DecimalPlain(g);
    DecimalPlain(b);
    SplitThree(x, y, z);
    PartValuesThree(x, y, z);
    InRangeThree(r, g, b);
    ValidColorOfParts(x + "," + y + "," + z, [x, y, z]);
  }

  lemma ValidColorOfParts(color: string, ps: seq<string>)
    requires Parts(color) == ps && |ps| == 3 && InRange(PartValues(ps))
    ensures ValidColor(color)
  {
  }

  lemma PartValuesThree(x: string, y: string, z: string)
    ensures PartValues([x, y, z]) == [PartValue(x), PartValue(y), PartValue(z)]
  {
    assert [x, y, z][..2] == [x, y] && [x, y][..1] == [x] && [x][..0] == [];
    assert PartValues([x]) == [PartValue(x)];
    assert PartValues([x, y]) == [PartValue(x), PartValue(y)];
  }

  lemma InRangeThree(r: nat, g: nat, b: nat)
    requires r <= 255 && g <= 255 && b <= 255
    ensures InRange([Some(r), Some(g), Some(b)])
  {
  }

  /** A number Integer.toString writes holds no ',' and, trimmed, parses back
      to itself. */
  lemma DecimalPlain(n: nat)
    requires n <= 255
    ensures ',' !in ToRadix(n, 10) && ToRadix(n, 10) != []
    ensures PartValue(ToRadix(n, 10)) == Some(n)
  {
    var t := ToRadix(n, 10);
    forall i | 0 <= i < |t| ensures t[i] != ',' && !IsTrimmed(t[i]) {
      assert DigitValue(t[i], 10).Some?;
    }
    ParseRadix(n, 10);
    assert PartValue(t) == ParseInt(t, 10);
  }

  /** Trailing commas are dropped by the split, so "r,g,b," is read like
      "r,g,b". */
  lemma TrailingCommaDropped(a: string, b: string, c: string)
    requires ',' !in a && ',' !in b && ',' !in c && c != []
    ensures Parts(a + "," + b + "," + c + ",") == Parts(a + "," + b + "," + c) == [a, b, c]
  {
    SplitThree(a, b, c);
    SplitThreeTrailing(a, b, c);
  }

  lemma SplitThreeTrailing(a: string, b: string, c: string)
    requires ',' !in a && ',' !in b && ',' !in c && c != []
    ensures Parts(a + "," + b + "," + c + ",") == [a, b, c]
  {
    var ps := [a, b, c, ""];
    var s := a + "," + b + "," + c + ",";
    PiecesFour(a, b, c);
    assert IndexOf(s, ",") >= 0 by {
      var rest := b + "," + c + ",";
      assert s == a + "," + rest;
      CommaFound(a, rest);
    }
    assert DropTrailingEmpty(ps) == [a, b, c] by {
      DropOneEmpty([a, b, c]);
      assert [a, b, c] + [""] == ps;
    }
    PartsOfPieces(s, ps);
  }

  lemma DropOneEmpty(ps: seq<string>)
    requires ps != [] && ps[|ps| - 1] != []
    ensures DropTrailingEmpty(ps + [""]) == ps
  {
    assert (ps + [""])[..|ps|] == ps;
  }

  lemma CommaFound(a: string, rest: string)
    requires ',' !in a
    ensures IndexOf(a + "," + rest, ",") >= 0
  {
    IndexOfFirstChar(a, ',', rest);
  }

  lemma PartsOfPieces(s: string, ps: seq<string>)
    requires IndexOf(s, ",") >= 0 && Pieces(s, ",") == ps
    ensures Parts(s) == DropTrailingEmpty(ps)
  {
  }

  lemma PiecesFour(a: string, b: string, c: string)
    requires ',' !in a && ',' !in b && ',' !in c
    ensures Pieces(a + "," + b + "," + c + ",", ",") == [a, b, c, ""]
  {
    JoinFour(a, b, c);
    PiecesOfJoin([a, b, c, ""], ',');
  }

  lemma JoinFour(a: string, b: string, c: string)
    ensures a + "," + b + "," + c + "," == JoinWith([a, b, c, ""], ",")
  {
    JoinWithSnoc([a], ",", b);
    JoinWithSnoc([a, b], ",", c);
    JoinWithSnoc([a, b, c], ",", "");
    assert [a] + [b] == [a, b] && [a, b] + [c] == [a, b, c] && [a, b, c] + [""] == [a, b, c, ""];
  }

  /** A leading comma leaves an empty first part, which is no int: the entry
      is refused as out of range. */
  lemma LeadingCommaRefused(name: string, b: string, c: string)
    requires name != [] && ',' !in b && ',' !in c && c != []
    ensures EntryError(RoiColor(Some(name), Some("," + b + "," + c))) == Some(ValueOutOfRange)
  {
    SplitThree("", b, c);
    assert "" + "," + b + "," + c == "," + b + "," + c;
    assert ["", b, c][..2] == ["", b] && ["", b][..1] == [""] && [""][..0] == [];
    assert PartValues([""])[0] == None;
    PartValuesPrefix(["", b, c], 1);
  }
}

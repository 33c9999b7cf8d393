/** A configured set of attributes a DICOMweb service may return: its number,
    its tag selection and its free-form "name=value" properties. */
module AttributeSets {
  import opened JavaText
  import opened IntSort

  const FormatError: string := "Property in incorrect format : "

  /** The name of a "name=value" entry: everything before its first '='. */
  function PropertyName(s: string): string
    requires IndexOfChar(s, '=') >= 0
  {
    s[..IndexOfChar(s, '=')]
  }

  /** The value: everything after the first '='. */
  function PropertyValue(s: string): string
    requires IndexOfChar(s, '=') >= 0
  {
    s[IndexOfChar(s, '=') + 1..]
  }

  /** How many leading entries are well formed (hold a '='). */
  function WellFormedPrefix(ss: seq<string>): (n: nat)
    ensures n <= |ss|
    ensures forall j :: 0 <= j < n ==> IndexOfChar(ss[j], '=') >= 0
    ensures n < |ss| ==> IndexOfChar(ss[n], '=') < 0
  {
    if ss == [] || IndexOfChar(ss[0], '=') < 0 then 0 else 1 + WellFormedPrefix(ss[1..])
  }

  /** The map that putting well-formed entries one by one into an empty map
      gives. */
  function Loaded(ss: seq<string>): map<string, Option<string>>
    requires forall j :: 0 <= j < |ss| ==> IndexOfChar(ss[j], '=') >= 0
  {
    if ss == [] then map[]
    else
      var last := ss[|ss| - 1];
      Loaded(ss[..|ss| - 1])[PropertyName(last) := Some(PropertyValue(last))]
  }

  /** Map.get followed by the null test of getProperty. */
  function Lookup(m: map<string, Option<string>>, name: string, defValue: Option<string>): (r: Option<string>)
    ensures name !in m ==> r == defValue
    ensures name in m && m[name].None? ==> r == defValue
    ensures name in m && m[name].Some? ==> r == m[name]
  {
    if name in m && m[name].Some? then m[name] else defValue
  }

  class AttributeSet {
    var number: int
    /** null until setSelection is called; afterwards the caller's own array. */
    var selection: array?<int>
    var installed: bool
    /** A HashMap that may hold null values, as setProperty allows. */
    var properties: map<string, Option<string>>

    constructor()
      ensures number == 0 && selection == null && installed && properties == map[]
    {
      number := 0;
      selection := null;
      installed := true;
      properties := map[];
    }

    method SetNumber(n: int)
      requires IsInt32(n)
      modifies this
      ensures number == n && selection == old(selection) && properties == old(properties)
    {
      number := n;
    }

    /** setSelection keeps the caller's array itself and sorts it in place, so
        the caller sees its own array reordered. */
    method SetSelection(sel: array<int>)
      modifies this, sel
      ensures selection == sel
      ensures sel[..] == SortSeq(old(sel[..]))
      ensures number == old(number) && properties == old(properties)
    {
      selection := sel;
      Sort(selection);
    }

    method SetProperty(name: string, value: Option<string>)
      modifies this
      ensures properties == old(properties)[name := value]
      ensures number == old(number) && selection == old(selection)
    {
      properties := properties[name := value];
    }

    /** getProperty: the stored value, or `defValue` when the name is absent or
        mapped to null. */
    function GetProperty(name: string, defValue: Option<string>): (r: Option<string>)
      reads this
      ensures name in properties && properties[name].Some? ==> r == properties[name]
      ensures name !in properties || properties[name].None? ==> r == defValue
    {
      Lookup(properties, name, defValue)
    }

    /** setProperties: the map is cleared, then each entry is split at its first
        '=' and stored, in order. The first entry without '=' raises
        IllegalArgumentException naming it; the entries before it stay stored. */
    method SetProperties(ss: seq<string>) returns (error: Option<string>)
      modifies this
      ensures properties == Loaded(ss[..WellFormedPrefix(ss)])
      ensures error.None? <==> WellFormedPrefix(ss) == |ss|
      ensures error.Some? ==> error.value == FormatError + ss[WellFormedPrefix(ss)]
      ensures number == old(number) && selection == old(selection)
    {
      properties := map[];
      var k := 0;
      while k < |ss|
        invariant k <= WellFormedPrefix(ss)
        invariant properties == Loaded(ss[..k])
        invariant number == old(number) && selection == old(selection)
      {
        var s := ss[k];
        var index := IndexOfChar(s, '=');
        if index < 0 {
          return Some(FormatError + s);
        }
        assert ss[..k + 1][..k] == ss[..k];
        SetProperty(s[..index], Some(s[index + 1..]));
        k := k + 1;
      }
      return None;
    }

    /** compareTo as written: the int difference of the numbers. */
    function CompareToAsWritten(other: AttributeSet): (r: int)
      reads this, other
      ensures IsInt32(r)
      ensures (r - (number - other.number)) % 0x1_0000_0000 == 0
    {
      Wrap32(number - other.number)
    }

    /** compareTo as intended: the sign of the comparison of the numbers. */
    function CompareTo(other: AttributeSet): (r: int)
      reads this, other
      ensures r < 0 <==> number < other.number
      ensures r == 0 <==> number == other.number
      ensures r > 0 <==> number > other.number
    {
      Signum(number - other.number)
    }
  }

  /** A property splits at its first '=': the name holds no '=', and name, '='
      and value give back the entry. */
  lemma PropertySplit(s: string)
    requires IndexOfChar(s, '=') >= 0
    ensures PropertyName(s) + "=" + PropertyValue(s) == s
    ensures '=' !in PropertyName(s)
  {
    var i := IndexOfChar(s, '=');
    var name, value := s[..i], s[i + 1..];
    assert PropertyName(s) == name && PropertyValue(s) == value;
    assert "=" == [s[i]];
    assert name + [s[i]] + value == s;
    assert forall k :: 0 <= k < |name| ==> name[k] == s[k];
  }

  /** Entry `j` is the last one that names `name`. */
  predicate LastNaming(ss: seq<string>, j: nat, name: string)
    requires forall i :: 0 <= i < |ss| ==> IndexOfChar(ss[i], '=') >= 0
  {
    j < |ss| && PropertyName(ss[j]) == name &&
    forall l :: j < l < |ss| ==> PropertyName(ss[l]) != name
  }

  /** After setProperties the names stored are those of the stored entries and
      nothing left from before. */
  lemma {:induction false} LoadedKeys(ss: seq<string>, name: string)
    requires forall j :: 0 <= j < |ss| ==> IndexOfChar(ss[j], '=') >= 0
    ensures name in Loaded(ss) <==> exists j :: 0 <= j < |ss| && PropertyName(ss[j]) == name
  {
    if ss != [] {
      var init := ss[..|ss| - 1];
      LoadedKeys(init, name);
      if exists j :: 0 <= j < |init| && PropertyName(init[j]) == name {
        var j :| 0 <= j < |init| && PropertyName(init[j]) == name;
        assert ss[j] == init[j];
      }
      if exists j :: 0 <= j < |ss| && PropertyName(ss[j]) == name {
        var j :| 0 <= j < |ss| && PropertyName(ss[j]) == name;
        if j < |init| {
          assert ss[j] == init[j];
        }
      }
    }
  }

  /** Each stored name maps to the value of the last entry with that name:
      later entries overwrite earlier ones. */
  lemma {:induction false} LoadedValue(ss: seq<string>, j: nat, name: string)
    requires forall i :: 0 <= i < |ss| ==> IndexOfChar(ss[i], '=') >= 0
    requires LastNaming(ss, j, name)
    ensures name in Loaded(ss) && Loaded(ss)[name] == Some(PropertyValue(ss[j]))
  {
    var init := ss[..|ss| - 1];
    if j < |init| {
      assert ss[j] == init[j];
      assert forall l :: j < l < |init| ==> init[l] == ss[l];
      LoadedValue(init, j, name);
    }
  }

  /** compareTo as written misorders numbers whose difference leaves the int
      range: INT_MIN compares as greater than 1. */
  lemma CompareToOverflow(a: AttributeSet, b: AttributeSet)
    requires a.number == INT_MIN && b.number == 1
    ensures a.number < b.number && a.CompareToAsWritten(b) > 0
  {
    assert Wrap32(INT_MIN - 1) == INT_MAX;
  }

  /** When the numbers are close enough for their difference to be an int, the
      subtraction orders them as intended. */
  lemma CompareToAsWrittenInRange(a: AttributeSet, b: AttributeSet)
    requires IsInt32(a.number - b.number)
    ensures Signum(a.CompareToAsWritten(b)) == a.CompareTo(b)
  {
  }
}

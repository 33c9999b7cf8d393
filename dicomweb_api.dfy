/** Request-path parsing of the DICOMweb REST controller: the attribute path of a
    bulkdata request ("{tag}/{item}/{tag}..." with hexadecimal tags and decimal
    item indexes) and the comma-separated frame list of a frames request
    (section 8.3.4 of DICOM PS3.18). */
module DicomwebApi {
  import opened JavaText

  /** IllegalArgumentException, NumberFormatException. */
  datatype ParseError = IllegalArgument | NumberFormat

  // ---------------------------------------------------------------- attribute path

  /** Tags sit at even positions and are hexadecimal; item indexes at odd ones. */
  function SegmentRadix(k: nat): (radix: nat)
    ensures radix == 16 || radix == 10
  {
    if k % 2 == 0 then 16 else 10
  }

  /** Integer.parseInt of each segment in the radix of its position, counting
      positions from `start`; None is the NumberFormatException. */
  function SegmentValues(ps: seq<string>, start: nat): (vs: seq<Option<int>>)
    ensures |vs| == |ps|
  {
    if ps == [] then [] else [ParseInt(ps[0], SegmentRadix(start))] + SegmentValues(ps[1..], start + 1)
  }

  /** Every segment parsed. */
  predicate AllParsed(vs: seq<Option<int>>)
  {
    forall k :: 0 <= k < |vs| ==> vs[k].Some?
  }

  /** new AttributePath(s): the '/'-separated segments, which must be odd in
      number (a tag, then pairs of item index and tag), each read in the radix
      of its position; a segment that does not parse is the
      NumberFormatException. */
  function AttributePathOf(s: string): (r: Result<seq<int>, ParseError>)
    ensures |DcmSplit(s, '/')| % 2 == 0 ==> r == Err(IllegalArgument)
    ensures r.Ok? ==> |r.value| % 2 == 1 && |r.value| == |DcmSplit(s, '/')|
    ensures r.Ok? ==> forall k :: 0 <= k < |r.value| ==> Some(r.value[k]) == SegmentValues(DcmSplit(s, '/'), 0)[k]
    ensures r.Err? && |DcmSplit(s, '/')| % 2 == 1 ==> r.error == NumberFormat
  {
    var split := DcmSplit(s, '/');
    if |split| % 2 == 0 then Err(IllegalArgument)
    else
      var vs := SegmentValues(split, 0);
      if AllParsed(vs) then Ok(seq(|vs|, k requires 0 <= k < |vs| => vs[k].value))
      else Err(NumberFormat)
  }

  /** Segment `i` is parsed in the radix of position start + i. */
  lemma {:induction false} SegmentValuesAt(ps: seq<string>, start: nat, i: nat)
    requires i < |ps|
    ensures SegmentValues(ps, start)[i] == ParseInt(ps[i], SegmentRadix(start + i))
  {
    if i > 0 {
      SegmentValuesAt(ps[1..], start + 1, i - 1);
      assert ps[1..][i - 1] == ps[i];
    }
  }

  /** The constructor: the split, its parity check, then the loop. */
  method ParseAttributePath(s: string) returns (r: Result<seq<int>, ParseError>)
    ensures r == AttributePathOf(s)
  {
    var split := DcmSplit(s, '/');
    if |split| % 2 == 0 {
      return Err(IllegalArgument);
    }
    var path, bad := FillPath(split);
    if bad.Some? {
      AttributePathFails(s, bad.value);
      return Err(NumberFormat);
    }
    AttributePathParsed(s, path[..]);
    return Ok(path[..]);
  }

  /** The constructor's loop, filling the int array segment by segment; `bad`
      is the first segment that does not parse. */
  method FillPath(split: seq<string>) returns (path: array<int>, bad: Option<nat>)
    ensures bad.Some? ==> bad.value < |split| && SegmentValues(split, 0)[bad.value].None?
    ensures bad.None? ==> path.Length == |split|
    ensures bad.None? ==> forall k :: 0 <= k < |split| ==> Some(path[k]) == SegmentValues(split, 0)[k]
  {
    ghost var vs := SegmentValues(split, 0);
    path := new int[|split|];
    for i := 0 to |split|
      invariant forall k :: 0 <= k < i ==> Some(path[k]) == vs[k]
    {
      var v := ParseInt(split[i], SegmentRadix(i));
      SegmentValuesAt(split, 0, i);
      if v.None? {
        return path, Some(i);
      }
      path[i] := v.value;
    }
    return path, None;
  }

  /** A segment that does not parse makes the constructor throw. */
  lemma AttributePathFails(s: string, i: nat)
    requires |DcmSplit(s, '/')| % 2 == 1 && i < |DcmSplit(s, '/')|
    requires SegmentValues(DcmSplit(s, '/'), 0)[i].None?
    ensures AttributePathOf(s) == Err(NumberFormat)
  {
    assert !AllParsed(SegmentValues(DcmSplit(s, '/'), 0));
  }

  /** Values matching every parsed segment are the constructed path. */
  lemma AttributePathParsed(s: string, p: seq<int>)
    requires |DcmSplit(s, '/')| % 2 == 1 && |p| == |DcmSplit(s, '/')|
    requires forall k :: 0 <= k < |p| ==> Some(p[k]) == SegmentValues(DcmSplit(s, '/'), 0)[k]
    ensures AttributePathOf(s) == Ok(p)
  {
    ParsedValues(SegmentValues(DcmSplit(s, '/'), 0), p);
  }

  /** A list whose entries are the parsed values is the Ok payload. */
  lemma ParsedValues(vs: seq<Option<int>>, p: seq<int>)
    requires |p| == |vs| && forall k :: 0 <= k < |p| ==> Some(p[k]) == vs[k]
    ensures AllParsed(vs) && p == seq(|vs|, k requires 0 <= k < |vs| => vs[k].value)
  {
  }

  /** The text of a path: tags in hexadecimal, item indexes in decimal. */
  function FormatSegments(path: seq<nat>, start: nat): (ps: seq<string>)
    ensures |ps| == |path|
    ensures forall k :: 0 <= k < |ps| ==> ps[k] == ToRadix(path[k], SegmentRadix(start + k))
  {
    if path == [] then [] else [ToRadix(path[0], SegmentRadix(start))] + FormatSegments(path[1..], start + 1)
  }

  function FormatAttributePath(path: seq<nat>): string
  {
    JoinWith(FormatSegments(path, 0), "/")
  }

  lemma DigitsHaveNoSeparator(s: string, radix: nat, c: char)
    requires AllDigits(s, radix) && DigitValue(c, radix).None?
    ensures c !in s
  {
  }

  lemma JoinStartsWithFirst(ps: seq<string>, d: string)
    requires |ps| >= 1
    ensures |JoinWith(ps, d)| >= |ps[0]|
  {
  }

  /** Splitting text joined from pieces free of `c` recovers the pieces. */
  lemma SplitOfJoin(ps: seq<string>, c: char)
    requires |ps| >= 1 && ps[0] != [] && forall k :: 0 <= k < |ps| ==> c !in ps[k]
    ensures DcmSplit(JoinWith(ps, [c]), c) == ps
  {
    JoinStartsWithFirst(ps, [c]);
    PiecesOfJoin(ps, c);
  }

  /** Every path of odd length whose values fit in an int is read back from its
      text. */
  lemma AttributePathRoundTrip(path: seq<nat>)
    requires |path| % 2 == 1
    requires forall k :: 0 <= k < |path| ==> path[k] <= INT_MAX
    ensures AttributePathOf(FormatAttributePath(path)) == Ok(path)
  {
    var ps := FormatSegments(path, 0);
    forall k | 0 <= k < |ps| ensures '/' !in ps[k] {
      DigitsHaveNoSeparator(ps[k], SegmentRadix(k), '/');
    }
    SplitOfJoin(ps, '/');
    FormattedSegmentValues(path, 0);
    var vs := SegmentValues(ps, 0);
    assert AllParsed(vs);
    assert seq(|vs|, k requires 0 <= k < |vs| => vs[k].value) == path;
  }

  /** Each formatted segment parses back, in the radix of its position, to its
      value. */
  lemma {:induction false} FormattedSegmentValues(path: seq<nat>, start: nat)
    requires forall k :: 0 <= k < |path| ==> path[k] <= INT_MAX
    ensures forall k :: 0 <= k < |path| ==> SegmentValues(FormatSegments(path, start), start)[k] == Some(path[k])
  {
    if path != [] {
      var tail := path[1..];
      FormattedSegmentValues(tail, start + 1);
      ParseRadix(path[0], SegmentRadix(start));
      var ps := FormatSegments(path, start);
      assert ps == [ToRadix(path[0], SegmentRadix(start))] + FormatSegments(tail, start + 1);
      assert ps[1..] == FormatSegments(tail, start + 1);
      forall k | 1 <= k < |path| ensures SegmentValues(ps, start)[k] == Some(path[k]) {
        assert path[k] == tail[k - 1];
      }
    }
  }

  // ---------------------------------------------------------------- frame list

  /** A frame number: a decimal int greater than zero. */
  predicate GoodFrame(p: string)
  {
    ParseInt(p, 10).Some? && ParseInt(p, 10).value > 0
  }

  /** The exception a bad piece raises: a number of 0 or less is rejected with
      IllegalArgumentException, anything else fails to parse. */
  function FrameError(p: string): ParseError
  {
    if ParseInt(p, 10).Some? then IllegalArgument else NumberFormat
  }

  /** The frame numbers of the pieces; the first bad piece decides the error. */
  function ParseFrames(ps: seq<string>): (r: Result<seq<int>, ParseError>)
    ensures r.Ok? ==> |r.value| == |ps|
  {
    if ps == [] then Ok([])
    else if !GoodFrame(ps[0]) then Err(FrameError(ps[0]))
    else
      var rest := ParseFrames(ps[1..]);
      if rest.Err? then rest else Ok([ParseInt(ps[0], 10).value] + rest.value)
  }

  /** The pieces are read when every one is a good frame number, each into its
      value; otherwise the error is that of the first bad piece. */
  lemma ParseFramesSpec(ps: seq<string>)
    ensures ParseFrames(ps).Ok? <==> forall k :: 0 <= k < |ps| ==> GoodFrame(ps[k])
    ensures ParseFrames(ps).Ok? ==>
      forall k :: 0 <= k < |ps| ==> ParseFrames(ps).value[k] == ParseInt(ps[k], 10).value > 0
    ensures ParseFrames(ps).Err? ==>
      exists k :: FirstBadAt(ps, k) && ParseFrames(ps).error == FrameError(ps[k])
  {
    ParseFramesOk(ps);
    if ParseFrames(ps).Ok? {
      ParseFramesValues(ps);
    } else {
      var k := ParseFramesError(ps);
    }
  }

  lemma {:induction false} ParseFramesOk(ps: seq<string>)
    ensures ParseFrames(ps).Ok? <==> forall k :: 0 <= k < |ps| ==> GoodFrame(ps[k])
  {
    if ps != [] && GoodFrame(ps[0]) {
      var tail := ps[1..];
      ParseFramesOk(tail);
      assert forall k :: 1 <= k < |ps| ==> ps[k] == tail[k - 1];
    }
  }

  lemma {:induction false} ParseFramesValues(ps: seq<string>)
    requires ParseFrames(ps).Ok?
    ensures forall k :: 0 <= k < |ps| ==> GoodFrame(ps[k]) && ParseFrames(ps).value[k] == ParseInt(ps[k], 10).value
  {
    forall k | 0 <= k < |ps| ensures GoodFrame(ps[k]) && ParseFrames(ps).value[k] == ParseInt(ps[k], 10).value {
      ParseFramesValueAt(ps, k);
    }
  }

  lemma {:induction false} ParseFramesValueAt(ps: seq<string>, k: nat)
    requires ParseFrames(ps).Ok? && k < |ps|
    ensures GoodFrame(ps[k]) && ParseFrames(ps).value[k] == ParseInt(ps[k], 10).value
  {
    var tail := ps[1..];
    var t := ParseFrames(tail);
    assert GoodFrame(ps[0]) && t.Ok?;
    if k > 0 {
      ParseFramesValueAt(tail, k - 1);
      assert ps[k] == tail[k - 1];
    }
  }

  /** The first bad piece, whose error ParseFrames reports. */
  lemma {:induction false} ParseFramesError(ps: seq<string>) returns (k: int)
    requires ParseFrames(ps).Err?
    ensures FirstBadAt(ps, k) && ParseFrames(ps).error == FrameError(ps[k])
  {
    if !GoodFrame(ps[0]) {
      k := 0;
    } else {
      var j := ParseFramesError(ps[1..]);
      FirstBadShift(ps, j);
      k := j + 1;
    }
  }

  /** Piece `k` is the first bad one. */
  predicate FirstBadAt(ps: seq<string>, k: int)
  {
    0 <= k < |ps| && !GoodFrame(ps[k]) && forall j :: 0 <= j < k ==> GoodFrame(ps[j])
  }

  lemma FirstBadShift(ps: seq<string>, k: int)
    requires ps != [] && GoodFrame(ps[0]) && FirstBadAt(ps[1..], k)
    ensures FirstBadAt(ps, k + 1) && ps[k + 1] == ps[1..][k]
  {
    forall j | 0 <= j < k + 1 ensures GoodFrame(ps[j]) {
      if j > 0 {
        assert ps[j] == ps[1..][j - 1];
      }
    }
  }

  /** new FrameList(s): the comma-separated frame numbers; the empty string has
      none. */
  function FrameListOf(s: string): (r: Result<seq<int>, ParseError>)
    ensures r.Ok? ==> |r.value| == |DcmSplit(s, ',')|
    ensures s == [] ==> r == Ok([])
  {
    ParseFrames(DcmSplit(s, ','))
  }

  /** The constructor's loop, storing each number before testing it. */
  method ParseFrameList(s: string) returns (r: Result<seq<int>, ParseError>)
    ensures r == FrameListOf(s)
  {
    var split := DcmSplit(s, ',');
    var frames := new int[|split|];
    for i := 0 to |split|
      invariant forall k :: 0 <= k < i ==> GoodFrame(split[k]) && frames[k] == ParseInt(split[k], 10).value
    {
      var v := ParseInt(split[i], 10);
      if v.None? {
        ParseFramesAt(split, i);
        return Err(NumberFormat);
      }
      frames[i] := v.value;
      if frames[i] <= 0 {
        ParseFramesAt(split, i);
        return Err(IllegalArgument);
      }
    }
    ParseFramesSpec(split);
    assert ParseFrames(split).value == frames[..];
    return Ok(frames[..]);
  }

  /** Good pieces up to a bad piece `i`: the error is that of piece `i`. */
  lemma {:induction false} ParseFramesAt(ps: seq<string>, i: nat)
    requires i < |ps| && !GoodFrame(ps[i])
    requires forall k :: 0 <= k < i ==> GoodFrame(ps[k])
    ensures ParseFrames(ps) == Err(FrameError(ps[i]))
  {
    if i > 0 {
      var tail := ps[1..];
      assert forall k :: 0 <= k < i - 1 ==> tail[k] == ps[k + 1];
      assert GoodFrame(ps[0]);
      ParseFramesAt(tail, i - 1);
    }
  }

  function FormatFrames(frames: seq<nat>): (ps: seq<string>)
    ensures |ps| == |frames|
    ensures forall k :: 0 <= k < |ps| ==> ps[k] == ToRadix(frames[k], 10)
  {
    if frames == [] then [] else [ToRadix(frames[0], 10)] + FormatFrames(frames[1..])
  }

  /** A non-empty list of positive frame numbers is read back from its text. */
  lemma FrameListRoundTrip(frames: seq<nat>)
    requires |frames| >= 1
    requires forall k :: 0 <= k < |frames| ==> 0 < frames[k] <= INT_MAX
    ensures FrameListOf(JoinWith(FormatFrames(frames), ",")) == Ok(frames)
  {
    var ps := FormatFrames(frames);
    forall k | 0 <= k < |ps| ensures ',' !in ps[k] && GoodFrame(ps[k]) && ParseInt(ps[k], 10).value == frames[k] {
      DigitsHaveNoSeparator(ps[k], 10, ',');
      ParseRadix(frames[k], 10);
    }
    SplitOfJoin(ps, ',');
    ParseFramesSpec(ps);
    var r := FrameListOf(JoinWith(ps, ","));
    assert r.value == frames;
  }

  // ---------------------------------------------------------------- bulkdata

  const BulkdataSeparator: string := "/bulkdata/"

  /** The attribute-path text of a bulkdata request URI: the URI split on
      "/bulkdata/" must give exactly two parts, and the second is the path;
      anything else is a bad request. */
  function BulkdataPath(uri: string): (r: Option<string>)
    ensures r.Some? ==> r.value != [] && !Contains(r.value, BulkdataSeparator)
    ensures !Contains(uri, BulkdataSeparator) ==> r.None?
  {
    var fallback := JavaSplit(uri, BulkdataSeparator);
    PiecesJoin(uri, BulkdataSeparator);
    if |fallback| != 2 then None else Some(fallback[1])
  }

  /** A request URI whose prefix holds no "/bulkdata/" and does not end in
      "/bulkdata" (so the separator first occurs right after it), followed by a
      non-empty path free of the separator, yields that path. */
  lemma BulkdataPathAccepts(prefix: string, path: string)
    requires path != [] && !Contains(path, BulkdataSeparator)
    requires !Contains(prefix + "/bulkdata", BulkdataSeparator)
    ensures BulkdataPath(prefix + BulkdataSeparator + path) == Some(path)
  {
    var uri := prefix + BulkdataSeparator + path;
    var i := |prefix|;
    SeparatorFirstAt(prefix, path);
    assert Pieces(uri, BulkdataSeparator) == [prefix, path] by {
      assert uri[..i] == prefix;
      assert uri[i + |BulkdataSeparator|..] == path;
      PiecesNoSeparator(path, BulkdataSeparator);
    }
    assert DropTrailingEmpty([prefix, path]) == [prefix, path];
  }

  /** The first "/bulkdata/" of such a URI is the one after the prefix: an
      earlier one would lie within the prefix followed by "/bulkdata". */
  lemma SeparatorFirstAt(prefix: string, path: string)
    requires !Contains(prefix + "/bulkdata", BulkdataSeparator)
    ensures IndexOf(prefix + BulkdataSeparator + path, BulkdataSeparator) == |prefix|
  {
    var uri := prefix + BulkdataSeparator + path;
    var head := prefix + "/bulkdata";
    assert OccursAt(uri, BulkdataSeparator, |prefix|) by {
      assert uri[|prefix|..|prefix| + |BulkdataSeparator|] == BulkdataSeparator;
    }
    forall k | 0 <= k < |prefix| ensures !OccursAt(uri, BulkdataSeparator, k) {
      assert !OccursAt(head, BulkdataSeparator, k);
      assert uri[k..k + |BulkdataSeparator|] == head[k..k + |BulkdataSeparator|] by {
        assert uri[..|head|] == head;
      }
    }
  }
}

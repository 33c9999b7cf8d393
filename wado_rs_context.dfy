/** The per-request state of a WADO-RS retrieve: the requested frame list, cut
    down to the frames an instance has; the choice of output from the acceptable
    media types (section 8.7 of DICOM PS3.18); and the spool directory needed
    when frames are requested out of order. */
module WadoRs {
  import opened JavaText
  import opened MediaTypes

  /** The kinds of response the retrieve can produce. */
  datatype WadoRsOutput = Dicom | Zip | Bulkdata | BulkdataFrame | BulkdataPath | MetadataJson

  /** The HTTP 406 the context throws. */
  datatype HttpError = NotAcceptable

  // ---------------------------------------------------------------- media types

  /** The first of `provided`, from position `j` on, compatible with `a`. */
  function FirstMatchFrom(a: MediaType, provided: seq<MediaType>, j: nat): (r: Option<MediaType>)
    requires j <= |provided|
    ensures r.None? <==> forall k :: j <= k < |provided| ==> !IsCompatibleWith(provided[k], a)
    ensures r.Some? ==>
      exists k :: (j <= k < |provided| && r.value == provided[k] && IsCompatibleWith(provided[k], a) &&
        forall l :: j <= l < k ==> !IsCompatibleWith(provided[l], a))
    decreases |provided| - j
  {
    if j == |provided| then None
    else if IsCompatibleWith(provided[j], a) then Some(provided[j])
    else FirstMatchFrom(a, provided, j + 1)
  }

  /** The first accepted type, from position `i` on, that some provided type is
      compatible with decides; the earliest such provided type is chosen. */
  function FirstCompatibleFrom(accepted: seq<MediaType>, provided: seq<MediaType>, i: nat): Option<MediaType>
    requires i <= |accepted|
    decreases |accepted| - i
  {
    if i == |accepted| then None
    else
      var m := FirstMatchFrom(accepted[i], provided, 0);
      if m.Some? then m else FirstCompatibleFrom(accepted, provided, i + 1)
  }

  /** None exactly when no provided type suits any accepted type; otherwise the
      answer for the earliest accepted type that some provided type suits. */
  lemma FirstCompatibleSpec(accepted: seq<MediaType>, provided: seq<MediaType>, i: nat)
    requires i <= |accepted|
    ensures FirstCompatibleFrom(accepted, provided, i).None? <==>
      forall k, l :: i <= k < |accepted| && 0 <= l < |provided| ==> !IsCompatibleWith(provided[l], accepted[k])
    ensures FirstCompatibleFrom(accepted, provided, i).Some? ==>
      exists k :: (i <= k < |accepted| && FirstCompatibleFrom(accepted, provided, i) == FirstMatchFrom(accepted[k], provided, 0) &&
        forall l :: i <= l < k ==> FirstMatchFrom(accepted[l], provided, 0).None?)
  {
    FirstCompatibleNone(accepted, provided, i);
    forall k | i <= k < |accepted|
      ensures FirstMatchFrom(accepted[k], provided, 0).None? <==>
        forall l :: 0 <= l < |provided| ==> !IsCompatibleWith(provided[l], accepted[k])
    {
    }
    if FirstCompatibleFrom(accepted, provided, i).Some? {
      var k := FirstCompatibleWitness(accepted, provided, i);
    }
  }

  lemma {:induction false} FirstCompatibleNone(accepted: seq<MediaType>, provided: seq<MediaType>, i: nat)
    requires i <= |accepted|
    ensures FirstCompatibleFrom(accepted, provided, i).None? <==>
      forall k :: i <= k < |accepted| ==> FirstMatchFrom(accepted[k], provided, 0).None?
    decreases |accepted| - i
  {
    if i < |accepted| {
      FirstCompatibleNone(accepted, provided, i + 1);
    }
  }

  /** The accepted type whose answer is returned. */
  lemma {:induction false} FirstCompatibleWitness(accepted: seq<MediaType>, provided: seq<MediaType>, i: nat) returns (k: nat)
    requires i <= |accepted| && FirstCompatibleFrom(accepted, provided, i).Some?
    ensures i <= k < |accepted| && FirstCompatibleFrom(accepted, provided, i) == FirstMatchFrom(accepted[k], provided, 0)
    ensures forall l :: i <= l < k ==> FirstMatchFrom(accepted[l], provided, 0).None?
    decreases |accepted| - i
  {
    if FirstMatchFrom(accepted[i], provided, 0).Some? {
      k := i;
    } else {
      k := FirstCompatibleWitness(accepted, provided, i + 1);
    }
  }

  /** selectMediaType: for each accepted type in turn, the first provided type
      compatible with it; null when none is. */
  method SelectMediaType(accepted: seq<MediaType>, provided: seq<MediaType>) returns (r: Option<MediaType>)
    ensures r == FirstCompatibleFrom(accepted, provided, 0)
  {
    for i := 0 to |accepted|
      invariant FirstCompatibleFrom(accepted, provided, 0) == FirstCompatibleFrom(accepted, provided, i)
    {
      for j := 0 to |provided|
        invariant FirstMatchFrom(accepted[i], provided, 0) == FirstMatchFrom(accepted[i], provided, j)
      {
        if IsCompatibleWith(provided[j], accepted[i]) {
          return Some(provided[j]);
        }
      }
    }
    return None;
  }

  // ---------------------------------------------------------------- frames

  /** The frames of `xs` that an instance of `numFrames` frames has, in order. */
  function KeptFrames(xs: seq<int>, numFrames: int): (r: seq<int>)
    ensures |r| <= |xs|
  {
    if xs == [] then []
    else KeptFrames(xs[..|xs| - 1], numFrames) + (if xs[|xs| - 1] <= numFrames then [xs[|xs| - 1]] else [])
  }

  /** Keeping distributes over concatenation, so the kept frames stay in their
      original order. */
  lemma {:induction false} KeptConcat(xs: seq<int>, ys: seq<int>, n: int)
    ensures KeptFrames(xs + ys, n) == KeptFrames(xs, n) + KeptFrames(ys, n)
    decreases |ys|
  {
    if ys != [] {
      var zs := xs + ys;
      assert zs[..|zs| - 1] == xs + ys[..|ys| - 1];
      KeptConcat(xs, ys[..|ys| - 1], n);
    } else {
      assert xs + ys == xs;
    }
  }

  /** A frame is kept exactly when it was requested and the instance has it. */
  lemma {:induction false} KeptMembers(xs: seq<int>, n: int, x: int)
    ensures x in KeptFrames(xs, n) <==> x in xs && x <= n
  {
    if xs != [] {
      KeptMembers(xs[..|xs| - 1], n, x);
      assert xs == xs[..|xs| - 1] + [xs[|xs| - 1]];
    }
  }

  /** Nothing is dropped exactly when every frame exists. */
  lemma KeptAll(xs: seq<int>, n: int)
    ensures |KeptFrames(xs, n)| == |xs| <==> forall k :: 0 <= k < |xs| ==> xs[k] <= n
    ensures (forall k :: 0 <= k < |xs| ==> xs[k] <= n) ==> KeptFrames(xs, n) == xs
  {
    if forall k :: 0 <= k < |xs| ==> xs[k] <= n {
      KeptWhenAllExist(xs, n);
    } else {
      var k :| 0 <= k < |xs| && xs[k] > n;
      DroppedShrinks(xs, n, k);
    }
  }

  lemma {:induction false} KeptWhenAllExist(xs: seq<int>, n: int)
    requires forall k :: 0 <= k < |xs| ==> xs[k] <= n
    ensures KeptFrames(xs, n) == xs
  {
    if xs != [] {
      var p := xs[..|xs| - 1];
      assert forall k :: 0 <= k < |p| ==> p[k] <= n by {
        forall k | 0 <= k < |p| ensures p[k] <= n { assert p[k] == xs[k]; }
      }
      KeptWhenAllExist(p, n);
      assert xs == p + [xs[|xs| - 1]];
    }
  }

  /** A frame past the end makes the kept list shorter. */
  lemma {:induction false} DroppedShrinks(xs: seq<int>, n: int, k: nat)
    requires k < |xs| && xs[k] > n
    ensures |KeptFrames(xs, n)| < |xs|
  {
    var p := xs[..|xs| - 1];
    if k < |p| {
      assert p[k] == xs[k];
      DroppedShrinks(p, n, k);
    }
  }

  /** Cutting down a cut-down list changes nothing. */
  lemma KeptIdempotent(xs: seq<int>, n: int)
    ensures KeptFrames(KeptFrames(xs, n), n) == KeptFrames(xs, n)
  {
    var r := KeptFrames(xs, n);
    forall k | 0 <= k < |r| ensures r[k] <= n {
      KeptMembers(xs, n, r[k]);
    }
    KeptAll(r, n);
  }

  /** Frames in order: each no greater than the next. */
  predicate NonDecreasing(xs: seq<int>)
  {
    forall i :: 1 <= i < |xs| ==> xs[i - 1] <= xs[i]
  }

  /** The adjacent comparisons the spool check makes order the whole list. */
  lemma {:induction false} NonDecreasingOrdered(xs: seq<int>, i: nat, j: nat)
    requires NonDecreasing(xs) && i <= j < |xs|
    ensures xs[i] <= xs[j]
    decreases j - i
  {
    if i < j {
      NonDecreasingOrdered(xs, i, j - 1);
    }
  }

  /** Cutting down an ordered list keeps it ordered, so no spool directory is
      needed for it either. */
  lemma {:induction false} KeptNonDecreasing(xs: seq<int>, n: int)
    requires NonDecreasing(xs)
    ensures NonDecreasing(KeptFrames(xs, n))
  {
    if xs != [] {
      var p := xs[..|xs| - 1];
      var last := xs[|xs| - 1];
      assert NonDecreasing(p);
      KeptNonDecreasing(p, n);
      var kp := KeptFrames(p, n);
      if last <= n && kp != [] {
        KeptMembers(p, n, kp[|kp| - 1]);
        var k :| 0 <= k < |p| && p[k] == kp[|kp| - 1];
        NonDecreasingOrdered(xs, k, |xs| - 1);
      }
    }
  }

  // ---------------------------------------------------------------- context

  class WadoRsContext {
    var frameList: array<int>
    var isPartialContent: bool
    var spoolDirectory: Option<string>
    var acceptableMediaTypes: seq<MediaType>
    var acceptableMultipartRelatedMediaTypes: seq<MediaType>
    var acceptableZipTransferSyntaxes: seq<string>

    /** The context of a request for `frames`, with the media types the request
        accepts. */
    constructor(frames: array<int>, acceptable: seq<MediaType>, multipart: seq<MediaType>, zip: seq<string>)
      ensures frameList == frames && !isPartialContent && spoolDirectory.None?
      ensures acceptableMediaTypes == acceptable && acceptableMultipartRelatedMediaTypes == multipart
      ensures acceptableZipTransferSyntaxes == zip
    {
      frameList := frames;
      isPartialContent := false;
      spoolDirectory := None;
      acceptableMediaTypes := acceptable;
      acceptableMultipartRelatedMediaTypes := multipart;
      acceptableZipTransferSyntaxes := zip;
    }

    /** adjustFrameList: the frames beyond `numFrames` are squeezed out of the
        array in place. If none was, the array stays; if none is left, the list
        becomes the shared empty array; otherwise it becomes a copy of the kept
        prefix and the response is marked partial. */
    method AdjustFrameList(numFrames: int)
      modifies this, frameList
      ensures frameList[..] == KeptFrames(old(frameList[..]), numFrames)
      ensures |frameList[..]| == old(frameList.Length) ==> frameList == old(frameList) && isPartialContent == old(isPartialContent)
      ensures |frameList[..]| == 0 < old(frameList.Length) ==> isPartialContent == old(isPartialContent)
      ensures 0 < |frameList[..]| < old(frameList.Length) ==> isPartialContent && fresh(frameList)
      ensures spoolDirectory == old(spoolDirectory) && acceptableMediaTypes == old(acceptableMediaTypes)
      ensures acceptableMultipartRelatedMediaTypes == old(acceptableMultipartRelatedMediaTypes)
      ensures acceptableZipTransferSyntaxes == old(acceptableZipTransferSyntaxes)
    {
      var a := frameList;
      ghost var before := a[..];
      var len := 0;
      for i := 0 to a.Length
        invariant len <= i
        invariant a[..len] == KeptFrames(before[..i], numFrames)
        invariant a[i..] == before[i..]
        invariant unchanged(this)
      {
        var frame := a[i];
        assert frame == before[i];
        assert before[..i + 1] == before[..i] + [frame];
        if frame <= numFrames {
          a[len] := frame;
          len := len + 1;
          assert a[..len] == a[..len - 1] + [frame];
        }
        assert a[i + 1..] == before[i + 1..];
      }
      assert before[..a.Length] == before;
      if len == a.Length {
        assert a[..] == a[..len];
        return;
      }
      if len == 0 {
        frameList := new int[0];
        return;
      }
      isPartialContent := true;
      frameList := CopyOf(a, len);
    }

    /** getSpoolDirectory(frameList): the directory already made, if any;
        otherwise one is made, at `tempDir`, exactly when some frame comes after
        a greater one. */
    method GetSpoolDirectory(frames: seq<int>, tempDir: string) returns (r: Option<string>)
      modifies this`spoolDirectory
      ensures old(spoolDirectory).Some? ==> r == old(spoolDirectory) && spoolDirectory == old(spoolDirectory)
      ensures old(spoolDirectory).None? ==> (r.None? <==> NonDecreasing(frames))
      ensures old(spoolDirectory).None? && r.Some? ==> r.value == tempDir
      ensures spoolDirectory == (if old(spoolDirectory).Some? then old(spoolDirectory) else r)
    {
      if spoolDirectory.Some? {
        return spoolDirectory;
      }
      var i := 1;
      while i < |frames|
        invariant 1 <= i && (|frames| > 0 ==> i <= |frames|)
        invariant forall k :: 1 <= k < i && k < |frames| ==> frames[k - 1] <= frames[k]
      {
        if frames[i - 1] > frames[i] {
          spoolDirectory := Some(tempDir);
          return spoolDirectory;
        }
        i := i + 1;
      }
      return None;
    }

    /** dicomOrBulkdataOrZip: 406 when the request accepts neither a
        multipart/related type nor a zip; otherwise DICOM when application/dicom
        is acceptable as a part, else ZIP when a zip is, else bulkdata. */
    method DicomOrBulkdataOrZip() returns (r: Result<WadoRsOutput, HttpError>)
      ensures r.Err? <==> acceptableMultipartRelatedMediaTypes == [] && acceptableZipTransferSyntaxes == []
      ensures r == Ok(Dicom) <==>
        exists k :: 0 <= k < |acceptableMultipartRelatedMediaTypes| &&
          IsCompatibleWith(ApplicationDicom, acceptableMultipartRelatedMediaTypes[k])
      ensures r == Ok(Zip) ==> acceptableZipTransferSyntaxes != []
      ensures r == Ok(Bulkdata) ==> acceptableZipTransferSyntaxes == [] && acceptableMultipartRelatedMediaTypes != []
      ensures r.Ok? ==> r.value in {Dicom, Zip, Bulkdata}
    {
      if acceptableMultipartRelatedMediaTypes == [] && acceptableZipTransferSyntaxes == [] {
        return Err(NotAcceptable);
      }
      var dicom := SelectMediaType(acceptableMultipartRelatedMediaTypes, [ApplicationDicom]);
      FirstCompatibleSpec(acceptableMultipartRelatedMediaTypes, [ApplicationDicom], 0);
      if dicom.Some? {
        return Ok(Dicom);
      }
      if acceptableZipTransferSyntaxes != [] {
        return Ok(Zip);
      }
      return Ok(Bulkdata);
    }

    /** bulkdataFrame and bulkdataPath: 406 unless some multipart/related type is
        acceptable. */
    method BulkdataOutput(frames: bool) returns (r: Result<WadoRsOutput, HttpError>)
      ensures r.Err? <==> acceptableMultipartRelatedMediaTypes == []
      ensures r.Ok? ==> r.value == if frames then BulkdataFrame else BulkdataPath
    {
      if acceptableMultipartRelatedMediaTypes == [] {
        return Err(NotAcceptable);
      }
      return Ok(if frames then BulkdataFrame else BulkdataPath);
    }

    /** metadataJSONorXML: JSON metadata when application/dicom+json or
        application/json is acceptable, 406 otherwise. */
    method MetadataJsonOrXml() returns (r: Result<WadoRsOutput, HttpError>)
      ensures r.Ok? <==>
        exists k, l :: 0 <= k < |acceptableMediaTypes| && 0 <= l < 2 &&
          IsCompatibleWith([ApplicationDicomJson, ApplicationJson][l], acceptableMediaTypes[k])
      ensures r.Ok? ==> r.value == MetadataJson
    {
      var m := SelectMediaType(acceptableMediaTypes, [ApplicationDicomJson, ApplicationJson]);
      FirstCompatibleSpec(acceptableMediaTypes, [ApplicationDicomJson, ApplicationJson], 0);
      if m.None? {
        return Err(NotAcceptable);
      }
      return Ok(MetadataJson);
    }
  }

  /** Arrays.copyOf: a new array holding the first `len` elements. */
  method CopyOf(a: array<int>, len: nat) returns (c: array<int>)
    requires len <= a.Length
    ensures fresh(c) && c[..] == a[..len]
  {
    c := new int[len];
    for k := 0 to len
      invariant c[..k] == a[..k]
    {
      c[k] := a[k];
    }
  }

  const ApplicationDicomJson: MediaType := Plain("application", "dicom+json")
  const ApplicationJson: MediaType := Plain("application", "json")
}

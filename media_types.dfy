/** DICOMweb media types and their mapping to and from transfer syntaxes (section
    8.7.3 of DICOM PS3.18), with the wildcard compatibility of Spring's MediaType
    that media-type negotiation relies on. */
module MediaTypes {
  import opened JavaText

  /** A media type: type, subtype and parameters by name. */
  datatype MediaType = MediaType(mtype: string, subtype: string, params: map<string, string>)

  function Plain(mtype: string, subtype: string): MediaType
  {
    MediaType(mtype, subtype, map[])
  }

  const TransferSyntaxParam: string := "transfer-syntax"

  /** The transfer syntaxes the mapping names. */
  datatype TransferSyntax =
    | ImplicitVRLittleEndian | ExplicitVRLittleEndian
    | JPEGBaseline8Bit | JPEGExtended12Bit | JPEGLossless | JPEGLosslessSV1
    | JPEGLSLossless | JPEGLSNearLossless
    | JPEG2000Lossless | JPEG2000 | JPEG2000MCLossless | JPEG2000MC
    | MPEG2MPML | MPEG2MPHL | MPEG4HP41 | MPEG4HP41BD
    | RLELossless

  /** The UID of each transfer syntax, from section A of DICOM PS3.6. */
  function Uid(t: TransferSyntax): string
  {
    match t
    case ImplicitVRLittleEndian => "1.2.840.10008.1.2"
    case ExplicitVRLittleEndian => "1.2.840.10008.1.2.1"
    case JPEGBaseline8Bit => "1.2.840.10008.1.2.4.50"
    case JPEGExtended12Bit => "1.2.840.10008.1.2.4.51"
    case JPEGLossless => "1.2.840.10008.1.2.4.57"
    case JPEGLosslessSV1 => "1.2.840.10008.1.2.4.70"
    case JPEGLSLossless => "1.2.840.10008.1.2.4.80"
    case JPEGLSNearLossless => "1.2.840.10008.1.2.4.81"
    case JPEG2000Lossless => "1.2.840.10008.1.2.4.90"
    case JPEG2000 => "1.2.840.10008.1.2.4.91"
    case JPEG2000MCLossless => "1.2.840.10008.1.2.4.92"
    case JPEG2000MC => "1.2.840.10008.1.2.4.93"
    case MPEG2MPML => "1.2.840.10008.1.2.4.100"
    case MPEG2MPHL => "1.2.840.10008.1.2.4.101"
    case MPEG4HP41 => "1.2.840.10008.1.2.4.102"
    case MPEG4HP41BD => "1.2.840.10008.1.2.4.103"
    case RLELossless => "1.2.840.10008.1.2.5"
  }

  const AllSyntaxes: seq<TransferSyntax> := [
    ImplicitVRLittleEndian, ExplicitVRLittleEndian, JPEGBaseline8Bit, JPEGExtended12Bit,
    JPEGLossless, JPEGLosslessSV1, JPEGLSLossless, JPEGLSNearLossless, JPEG2000Lossless,
    JPEG2000, JPEG2000MCLossless, JPEG2000MC, MPEG2MPML, MPEG2MPHL, MPEG4HP41, MPEG4HP41BD,
    RLELossless]

  /** The case of a switch on a UID string that matches, if any. */
  function LookupFrom(ts: string, k: nat): (r: Option<TransferSyntax>)
    requires k <= |AllSyntaxes|
    ensures r.Some? ==> Uid(r.value) == ts
    ensures r.None? ==> forall j :: k <= j < |AllSyntaxes| ==> Uid(AllSyntaxes[j]) != ts
    decreases |AllSyntaxes| - k
  {
    if k == |AllSyntaxes| then None
    else if Uid(AllSyntaxes[k]) == ts then Some(AllSyntaxes[k])
    else LookupFrom(ts, k + 1)
  }

  function Lookup(ts: string): (r: Option<TransferSyntax>)
    ensures r.Some? ==> Uid(r.value) == ts
    ensures r.None? ==> forall t :: Uid(t) != ts
  {
    LookupAbsent(ts);
    LookupFrom(ts, 0)
  }

  lemma LookupAbsent(ts: string)
    ensures LookupFrom(ts, 0).None? ==> forall t :: Uid(t) != ts
  {
    if LookupFrom(ts, 0).None? {
      forall t ensures Uid(t) != ts {
        Enumerated(t);
        var j :| 0 <= j < |AllSyntaxes| && AllSyntaxes[j] == t;
      }
    }
  }

  /** Every transfer syntax is in the list. */
  lemma Enumerated(t: TransferSyntax)
    ensures t in AllSyntaxes
  {
    match t
    case ImplicitVRLittleEndian => assert AllSyntaxes[0] == t;
    case ExplicitVRLittleEndian => assert AllSyntaxes[1] == t;
    case JPEGBaseline8Bit => assert AllSyntaxes[2] == t;
    case JPEGExtended12Bit => assert AllSyntaxes[3] == t;
    case JPEGLossless => assert AllSyntaxes[4] == t;
    case JPEGLosslessSV1 => assert AllSyntaxes[5] == t;
    case JPEGLSLossless => assert AllSyntaxes[6] == t;
    case JPEGLSNearLossless => assert AllSyntaxes[7] == t;
    case JPEG2000Lossless => assert AllSyntaxes[8] == t;
    case JPEG2000 => assert AllSyntaxes[9] == t;
    case JPEG2000MCLossless => assert AllSyntaxes[10] == t;
    case JPEG2000MC => assert AllSyntaxes[11] == t;
    case MPEG2MPML => assert AllSyntaxes[12] == t;
    case MPEG2MPHL => assert AllSyntaxes[13] == t;
    case MPEG4HP41 => assert AllSyntaxes[14] == t;
    case MPEG4HP41BD => assert AllSyntaxes[15] == t;
    case RLELossless => assert AllSyntaxes[16] == t;
  }

  const ApplicationDicom: MediaType := Plain("application", "dicom")
  const ApplicationOctetStream: MediaType := Plain("application", "octet-stream")
  const ImageJpeg: MediaType := Plain("image", "jpeg")
  const ImageJls: MediaType := Plain("image", "jls")
  const ImageJp2: MediaType := Plain("image", "jp2")
  const ImageJpx: MediaType := Plain("image", "jpx")
  const ImageDicomRle: MediaType := Plain("image", "dicom-rle")
  const VideoMpeg: MediaType := Plain("video", "mpeg")
  const VideoMp4: MediaType := Plain("video", "mp4")

  /** The lossless compressed syntaxes, whose media type alone names them. */
  predicate ImpliedByMediaType(t: TransferSyntax)
  {
    t.JPEGLosslessSV1? || t.JPEGLSLossless? || t.JPEG2000Lossless? || t.JPEG2000MCLossless? || t.RLELossless?
  }

  predicate Uncompressed(t: TransferSyntax)
  {
    t.ExplicitVRLittleEndian? || t.ImplicitVRLittleEndian?
  }

  /** The media type (without parameters) that carries a transfer syntax. */
  function BaseType(t: TransferSyntax): MediaType
  {
    match t
    case ExplicitVRLittleEndian | ImplicitVRLittleEndian => ApplicationOctetStream
    case JPEGLosslessSV1 | JPEGBaseline8Bit | JPEGExtended12Bit | JPEGLossless => ImageJpeg
    case JPEGLSLossless | JPEGLSNearLossless => ImageJls
    case JPEG2000Lossless | JPEG2000 => ImageJp2
    case JPEG2000MCLossless | JPEG2000MC => ImageJpx
    case RLELossless => ImageDicomRle
    case MPEG2MPML | MPEG2MPHL => VideoMpeg
    case MPEG4HP41 | MPEG4HP41BD => VideoMp4
  }

  /** forTransferSyntax: the bulkdata media type of a transfer syntax. The two
      uncompressed syntaxes give application/octet-stream, the default lossless
      syntax of each image type gives that type alone, any other known syntax
      gives its type with a transfer-syntax parameter, and an unknown UID is the
      IllegalArgumentException (None). */
  function ForTransferSyntax(ts: string): (r: Option<MediaType>)
    ensures r.Some? <==> exists t :: Uid(t) == ts
    ensures r.Some? ==> r.value.mtype == BaseType(Lookup(ts).value).mtype && r.value.subtype == BaseType(Lookup(ts).value).subtype
    ensures r.Some? && (Uncompressed(Lookup(ts).value) || ImpliedByMediaType(Lookup(ts).value)) ==>
      r.value.params == map[]
    ensures r.Some? && !Uncompressed(Lookup(ts).value) && !ImpliedByMediaType(Lookup(ts).value) ==>
      r.value.params == map[TransferSyntaxParam := ts]
  {
    var t := Lookup(ts);
    if t.None? then None
    else
      match t.value
      case ExplicitVRLittleEndian | ImplicitVRLittleEndian => Some(ApplicationOctetStream)
      case JPEGLosslessSV1 => Some(ImageJpeg)
      case JPEGLSLossless => Some(ImageJls)
      case JPEG2000Lossless => Some(ImageJp2)
      case JPEG2000MCLossless => Some(ImageJpx)
      case RLELossless => Some(ImageDicomRle)
      case _ =>
        var m := BaseType(t.value);
        Some(MediaType(m.mtype, m.subtype, map[TransferSyntaxParam := ts]))
  }

  /** The video half of transferSyntaxOf's switch, also reached by an image type
      whose subtype the image cases do not list (the image case has no break). */
  function VideoSyntax(subtype: string): Option<TransferSyntax>
  {
    if subtype == "mpeg" then Some(MPEG2MPML)
    else if subtype == "mp4" || subtype == "quicktime" then Some(MPEG4HP41)
    else None
  }

  function ImageSyntax(subtype: string): Option<TransferSyntax>
  {
    if subtype == "jpeg" then Some(JPEGLosslessSV1)
    else if subtype == "jls" || subtype == "x-jls" then Some(JPEGLSLossless)
    else if subtype == "jp2" then Some(JPEG2000Lossless)
    else if subtype == "jpx" then Some(JPEG2000MCLossless)
    else if subtype == "x-dicom-rle" || subtype == "dicom-rle" then Some(RLELossless)
    else None
  }

  /** The syntax a type and subtype stand for, after lower-casing. */
  function SyntaxOfType(mtype: string, subtype: string): Option<TransferSyntax>
  {
    var t := ToLower(mtype);
    var s := ToLower(subtype);
    if t == "image" then (if ImageSyntax(s).Some? then ImageSyntax(s) else VideoSyntax(s))
    else if t == "video" then VideoSyntax(s)
    else None
  }

  /** transferSyntaxOf: the transfer-syntax parameter when there is one; otherwise
      the syntax the type and subtype stand for, Explicit VR Little Endian when
      they stand for none. */
  function TransferSyntaxOf(m: MediaType): (ts: string)
    ensures TransferSyntaxParam in m.params ==> ts == m.params[TransferSyntaxParam]
    ensures TransferSyntaxParam !in m.params && SyntaxOfType(m.mtype, m.subtype).None? ==>
      ts == Uid(ExplicitVRLittleEndian)
  {
    if TransferSyntaxParam in m.params then m.params[TransferSyntaxParam]
    else
      var found := SyntaxOfType(m.mtype, m.subtype);
      if found.Some? then Uid(found.value) else Uid(ExplicitVRLittleEndian)
  }

  /** Text without ASCII capitals. */
  predicate NoCapitals(s: string)
  {
    forall i :: 0 <= i < |s| ==> !('A' <= s[i] <= 'Z')
  }

  /** ToLower leaves text without capitals alone. */
  lemma {:induction false} LowerOfLower(s: string)
    requires NoCapitals(s)
    ensures ToLower(s) == s
  {
    if s != [] {
      LowerOfLower(s[1..]);
    }
  }

  lemma LiteralSyntax(mtype: string, subtype: string)
    requires NoCapitals(mtype) && NoCapitals(subtype)
    ensures SyntaxOfType(mtype, subtype) ==
      if mtype == "image" then (if ImageSyntax(subtype).Some? then ImageSyntax(subtype) else VideoSyntax(subtype))
      else if mtype == "video" then VideoSyntax(subtype)
      else None
  {
    LowerOfLower(mtype);
    LowerOfLower(subtype);
  }

  lemma OctetStreamSyntax()
    ensures SyntaxOfType("application", "octet-stream") == None
  {
    assert |ToLower("application")| == 11;
  }

  /** A lower-case image subtype the image cases list stands for their syntax. */
  lemma ImageTypeSyntax(subtype: string)
    requires NoCapitals(subtype) && ImageSyntax(subtype).Some?
    ensures SyntaxOfType("image", subtype) == ImageSyntax(subtype)
  {
    assert NoCapitals("image");
    LiteralSyntax("image", subtype);
  }

  /** The base type of an uncompressed syntax stands for none; that of a default
      lossless syntax stands for the syntax itself. */
  lemma BaseTypeSyntax(t: TransferSyntax)
    requires ImpliedByMediaType(t) || Uncompressed(t)
    ensures SyntaxOfType(BaseType(t).mtype, BaseType(t).subtype) ==
      if Uncompressed(t) then None else Some(t)
  {
    var subtype := BaseType(t).subtype;
    if Uncompressed(t) {
      OctetStreamSyntax();
    } else {
      assert BaseType(t).mtype == "image";
      assert NoCapitals(subtype) && ImageSyntax(subtype) == Some(t) by {
        match t
        case JPEGLosslessSV1 => assert subtype == "jpeg";
        case JPEGLSLossless => assert subtype == "jls";
        case JPEG2000Lossless => assert subtype == "jp2";
        case JPEG2000MCLossless => assert subtype == "jpx";
        case RLELossless => assert subtype == "dicom-rle";
      }
      ImageTypeSyntax(subtype);
    }
  }

  /** The media type of every known UID names it again, except Implicit VR Little
      Endian, which shares application/octet-stream with Explicit VR Little Endian. */
  lemma TransferSyntaxRoundTrip(ts: string)
    requires ForTransferSyntax(ts).Some?
    ensures ts != Uid(ImplicitVRLittleEndian) ==> TransferSyntaxOf(ForTransferSyntax(ts).value) == ts
    ensures ts == Uid(ImplicitVRLittleEndian) ==>
      TransferSyntaxOf(ForTransferSyntax(ts).value) == Uid(ExplicitVRLittleEndian)
  {
    var t := Lookup(ts).value;
    if Uncompressed(t) || ImpliedByMediaType(t) {
      BaseTypeSyntax(t);
    }
  }

  /** The missing break: an image type whose subtype no image case lists is
      looked up among the video subtypes. */
  lemma ImageFallsThroughToVideo(subtype: string)
    requires NoCapitals(subtype)
    requires ImageSyntax(subtype).None?
    ensures TransferSyntaxOf(Plain("image", subtype)) ==
      if VideoSyntax(subtype).Some? then Uid(VideoSyntax(subtype).value) else Uid(ExplicitVRLittleEndian)
  {
    assert NoCapitals("image");
    LiteralSyntax("image", subtype);
  }

  /** So image/mpeg is read as MPEG-2 video. */
  lemma ImageMpegIsVideo()
    ensures TransferSyntaxOf(Plain("image", "mpeg")) == Uid(MPEG2MPML)
  {
    assert NoCapitals("mpeg");
    ImageFallsThroughToVideo("mpeg");
  }

  // ---------------------------------------------------------------- equality

  /** equalsIgnoreParameters: type and subtype equal ignoring case. */
  predicate EqualsIgnoreParameters(a: MediaType, b: MediaType)
    ensures a.mtype == b.mtype && a.subtype == b.subtype ==> EqualsIgnoreParameters(a, b)
    ensures EqualsIgnoreParameters(a, b) ==> |a.mtype| == |b.mtype| && |a.subtype| == |b.subtype|
  {
    EqualsIgnoreCase(a.mtype, b.mtype) && EqualsIgnoreCase(a.subtype, b.subtype)
  }

  /** Case-insensitive equality is equality of the lower-cased strings. */
  lemma EqualsIgnoreCaseLower(a: string, b: string)
    ensures EqualsIgnoreCase(a, b) <==> ToLower(a) == ToLower(b)
  {
    if ToLower(a) == ToLower(b) {
      assert |a| == |ToLower(a)|;
      forall i | 0 <= i < |a| ensures LowerChar(a[i]) == LowerChar(b[i]) {
        assert ToLower(a)[i] == ToLower(b)[i];
      }
    }
  }

  /** Parameters play no part, and the relation is an equivalence. */
  lemma EqualsIgnoreParametersEquivalence(a: MediaType, b: MediaType, c: MediaType, p: map<string, string>)
    ensures EqualsIgnoreParameters(a, a.(params := p))
    ensures EqualsIgnoreParameters(a, b) ==> EqualsIgnoreParameters(b, a)
    ensures EqualsIgnoreParameters(a, b) && EqualsIgnoreParameters(b, c) ==> EqualsIgnoreParameters(a, c)
    ensures EqualsIgnoreParameters(a, b) <==>
      ToLower(a.mtype) == ToLower(b.mtype) && ToLower(a.subtype) == ToLower(b.subtype)
  {
    EqualsIgnoreCaseLower(a.mtype, b.mtype);
    EqualsIgnoreCaseLower(a.subtype, b.subtype);
    EqualsIgnoreCaseLower(b.mtype, c.mtype);
    EqualsIgnoreCaseLower(b.subtype, c.subtype);
    EqualsIgnoreCaseLower(a.mtype, c.mtype);
    EqualsIgnoreCaseLower(a.subtype, c.subtype);
    EqualsIgnoreCaseLower(b.mtype, a.mtype);
    EqualsIgnoreCaseLower(b.subtype, a.subtype);
  }

  /** getTransferSyntax: the transfer-syntax parameter of an application/dicom
      type; nothing for a null or any other type. */
  function GetTransferSyntax(m: Option<MediaType>): (r: Option<string>)
    ensures r.Some? ==>
      m.Some? && EqualsIgnoreParameters(ApplicationDicom, m.value) &&
      TransferSyntaxParam in m.value.params && r.value == m.value.params[TransferSyntaxParam]
    ensures m.Some? && EqualsIgnoreParameters(ApplicationDicom, m.value) && TransferSyntaxParam in m.value.params ==>
      r.Some?
  {
    if m.Some? && EqualsIgnoreParameters(ApplicationDicom, m.value) && TransferSyntaxParam in m.value.params
    then Some(m.value.params[TransferSyntaxParam])
    else None
  }

  /** applicationDicomWithTransferSyntax: application/dicom carrying the
      transfer syntax as its only parameter; getTransferSyntax reads it back. */
  function ApplicationDicomWithTransferSyntax(tsuid: string): (m: MediaType)
    ensures EqualsIgnoreParameters(m, ApplicationDicom) && m.params.Keys == {TransferSyntaxParam}
    ensures GetTransferSyntax(Some(m)) == Some(tsuid)
    ensures TransferSyntaxOf(m) == tsuid
  {
    MediaType("application", "dicom", map[TransferSyntaxParam := tsuid])
  }

  // ---------------------------------------------------------------- SOP classes

  const ApplicationPdf: MediaType := Plain("application", "pdf")
  const ApplicationXml: MediaType := Plain("application", "xml")
  const ModelStl: MediaType := Plain("model", "stl")
  const ModelXStlBinary: MediaType := Plain("model", "x.stl-binary")
  const ApplicationSla: MediaType := Plain("application", "sla")
  const ModelObj: MediaType := Plain("model", "obj")
  const ModelMtl: MediaType := Plain("model", "mtl")

  /** The SOP classes a bulkdata media type can be stored as. */
  datatype SopClass =
    | SecondaryCaptureImage | VideoPhotographicImage | EncapsulatedPdf
    | EncapsulatedCda | EncapsulatedStl | EncapsulatedObj | EncapsulatedMtl

  /** The UID of each SOP class, from section A of DICOM PS3.6. */
  function SopClassUid(c: SopClass): string
  {
    match c
    case SecondaryCaptureImage => "1.2.840.10008.5.1.4.1.1.7"
    case VideoPhotographicImage => "1.2.840.10008.5.1.4.1.1.77.1.4.1"
    case EncapsulatedPdf => "1.2.840.10008.5.1.4.1.1.104.1"
    case EncapsulatedCda => "1.2.840.10008.5.1.4.1.1.104.2"
    case EncapsulatedStl => "1.2.840.10008.5.1.4.1.1.104.3"
    case EncapsulatedObj => "1.2.840.10008.5.1.4.1.1.104.4"
    case EncapsulatedMtl => "1.2.840.10008.5.1.4.1.1.104.5"
  }

  /** isSTLType: model/stl, model/x.stl-binary or application/sla, ignoring case
      and parameters. */
  predicate IsStlType(m: MediaType)
    ensures IsStlType(m) ==> EqualsIgnoreCase(m.mtype, "model") || EqualsIgnoreCase(m.mtype, "application")
  {
    EqualsIgnoreParameters(m, ModelStl) || EqualsIgnoreParameters(m, ModelXStlBinary) ||
    EqualsIgnoreParameters(m, ApplicationSla)
  }

  /** sopClassOf: any image type is a secondary capture, any video type a video
      photographic image; then PDF, CDA (application/xml), the STL types, OBJ and
      MTL in that order; None (null) for every other type. */
  function SopClassOf(m: MediaType): (r: Option<SopClass>)
    ensures r == Some(SecondaryCaptureImage) <==> ToLower(m.mtype) == "image"
    ensures r == Some(VideoPhotographicImage) <==> ToLower(m.mtype) == "video"
  {
    var t := ToLower(m.mtype);
    if t == "image" then Some(SecondaryCaptureImage)
    else if t == "video" then Some(VideoPhotographicImage)
    else if EqualsIgnoreParameters(m, ApplicationPdf) then Some(EncapsulatedPdf)
    else if EqualsIgnoreParameters(m, ApplicationXml) then Some(EncapsulatedCda)
    else if IsStlType(m) then Some(EncapsulatedStl)
    else if EqualsIgnoreParameters(m, ModelObj) then Some(EncapsulatedObj)
    else if EqualsIgnoreParameters(m, ModelMtl) then Some(EncapsulatedMtl)
    else None
  }

  /** The chain of sopClassOf read on the lower-cased type and subtype. */
  function SopClassOfLower(t: string, st: string): Option<SopClass>
  {
    if t == "image" then Some(SecondaryCaptureImage)
    else if t == "video" then Some(VideoPhotographicImage)
    else if t == "application" && st == "pdf" then Some(EncapsulatedPdf)
    else if t == "application" && st == "xml" then Some(EncapsulatedCda)
    else if (t == "model" && (st == "stl" || st == "x.stl-binary")) || (t == "application" && st == "sla")
    then Some(EncapsulatedStl)
    else if t == "model" && st == "obj" then Some(EncapsulatedObj)
    else if t == "model" && st == "mtl" then Some(EncapsulatedMtl)
    else None
  }

  /** Every comparison of the chain is a comparison of the lower-cased type and
      subtype with the constant's own, which are lower case; so each document
      type, in any capitalisation and with any parameters, is stored as its own
      SOP class. */
  lemma SopClassOfLowered(m: MediaType)
    ensures SopClassOf(m) == SopClassOfLower(ToLower(m.mtype), ToLower(m.subtype))
  {
    EqualsPlain(m, "application", "pdf");
    EqualsPlain(m, "application", "xml");
    IsStlLowered(m);
    EqualsPlain(m, "model", "obj");
    EqualsPlain(m, "model", "mtl");
  }

  /** isSTLType is a test of the lower-cased type and subtype. */
  lemma IsStlLowered(m: MediaType)
    ensures IsStlType(m) <==>
      (ToLower(m.mtype) == "model" && (ToLower(m.subtype) == "stl" || ToLower(m.subtype) == "x.stl-binary")) ||
      (ToLower(m.mtype) == "application" && ToLower(m.subtype) == "sla")
  {
    EqualsPlain(m, "application", "sla");
    EqualsPlain(m, "model", "stl");
    EqualsPlain(m, "model", "x.stl-binary");
  }

  /** Equality ignoring parameters with a lower-case constant type is equality of
      the lower-cased type and subtype with the constant's. */
  lemma EqualsPlain(m: MediaType, t: string, st: string)
    requires NoCapitals(t) && NoCapitals(st)
    ensures EqualsIgnoreParameters(m, Plain(t, st)) <==> ToLower(m.mtype) == t && ToLower(m.subtype) == st
  {
    EqualsIgnoreCaseLower(m.mtype, t);
    EqualsIgnoreCaseLower(m.subtype, st);
    LowerOfLower(t);
    LowerOfLower(st);
  }

  /** The SOP class depends on type and subtype only, not on parameters. */
  lemma SopClassOfIgnoresParameters(m: MediaType, p: map<string, string>)
    ensures SopClassOf(m.(params := p)) == SopClassOf(m)
  {
    var m' := m.(params := p);
    assert m'.mtype == m.mtype && m'.subtype == m.subtype;
  }

  // ---------------------------------------------------------------- compatibility

  /** "*" or a structured-syntax wildcard such as "*+xml". */
  predicate IsWildcardSubtype(subtype: string)
  {
    subtype == "*" || (|subtype| >= 2 && subtype[..2] == "*+")
  }

  /** The structured-syntax suffix of a subtype: the text after the last '+'. */
  function SubtypeSuffix(subtype: string): (r: Option<string>)
    ensures r.Some? ==> '+' !in r.value
  {
    var i := LastIndexOf(subtype, "+");
    if i < 0 then None
    else
      var suffix := subtype[i + 1..];
      assert '+' !in suffix by {
        forall k | 0 <= k < |suffix| ensures suffix[k] != '+' {
          assert !OccursAt(subtype, "+", i + 1 + k);
          assert subtype[i + 1 + k..i + 2 + k] == [suffix[k]];
        }
      }
      Some(suffix)
  }

  /** MimeType.isCompatibleWith on the type and subtype of each side. */
  predicate PartsCompatible(atype: string, asub: string, btype: string, bsub: string)
  {
    if atype == "*" || btype == "*" then true
    else if atype != btype then false
    else if asub == bsub then true
    else if !(IsWildcardSubtype(asub) || IsWildcardSubtype(bsub)) then false
    else if asub == "*" || bsub == "*" then true
    else if IsWildcardSubtype(asub) && SubtypeSuffix(asub).Some? then
      SubtypeSuffix(asub).value == bsub || Some(SubtypeSuffix(asub).value) == SubtypeSuffix(bsub)
    else if IsWildcardSubtype(bsub) && SubtypeSuffix(bsub).Some? then
      asub == SubtypeSuffix(bsub).value || Some(SubtypeSuffix(bsub).value) == SubtypeSuffix(asub)
    else false
  }

  /** MimeType.isCompatibleWith: wildcards on either side match, and a
      structured-syntax wildcard matches its suffix. Parameters are ignored. */
  predicate IsCompatibleWith(a: MediaType, b: MediaType)
    ensures a.mtype == "*" || b.mtype == "*" ==> IsCompatibleWith(a, b)
    ensures IsCompatibleWith(a, b) && a.mtype != "*" && b.mtype != "*" ==> a.mtype == b.mtype
    ensures a.mtype == b.mtype && a.subtype == b.subtype ==> IsCompatibleWith(a, b)
  {
    PartsCompatible(a.mtype, a.subtype, b.mtype, b.subtype)
  }

  /** Compatibility is symmetric. */
  lemma CompatibleSymmetric(a: MediaType, b: MediaType)
    ensures IsCompatibleWith(a, b) <==> IsCompatibleWith(b, a)
  {
    PartsSymmetric(a.mtype, a.subtype, b.mtype, b.subtype);
  }

  lemma PartsSymmetric(atype: string, asub: string, btype: string, bsub: string)
    ensures PartsCompatible(atype, asub, btype, bsub) <==> PartsCompatible(btype, bsub, atype, asub)
  {
    if IsWildcardSubtype(asub) && IsWildcardSubtype(bsub) && asub != "*" && bsub != "*" {
      var sa, sb := SubtypeSuffix(asub), SubtypeSuffix(bsub);
      if sa.Some? && sb.Some? {
        assert '+' in asub by { assert asub[1] == '+'; }
        assert '+' in bsub by { assert bsub[1] == '+'; }
        assert sa.value != bsub;
        assert sb.value != asub;
      }
    }
  }

  /** Every type is compatible with itself, and compatibility never looks at
      parameters. */
  lemma CompatibleReflexive(a: MediaType, b: MediaType, p: map<string, string>)
    ensures IsCompatibleWith(a, a)
    ensures IsCompatibleWith(a, b) <==> IsCompatibleWith(a.(params := p), b)
  {
    var a' := a.(params := p);
    assert a'.mtype == a.mtype && a'.subtype == a.subtype;
  }
}

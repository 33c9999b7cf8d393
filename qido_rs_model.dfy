/** The retrieve URL a QIDO-RS response attaches to each match (section 6.7.1.2 of
    DICOM PS3.18): the service base taken from the request URL, then one path
    segment per level down to the matched entity. */
module QidoRsModel {
  import opened JavaText

  /** The query levels of QidoRsModel; PATIENT never gets a retrieve URL. */
  datatype Level = Patient | Study | Series | Instance

  /** The attributes of a match that the retrieve URL reads and writes; an absent
      UID is Attributes.getString's null. */
  datatype Match = Match(
    studyUid: Option<string>,
    seriesUid: Option<string>,
    sopUid: Option<string>,
    retrieveUrl: Option<string>)

  const RsMarker: string := "/rs/"

  /** StringBuffer.append(String) writes "null" for null. */
  function AppendText(s: Option<string>): string
  {
    if s.None? then "null" else s.value
  }

  /** The base: the request URL cut just after the last "/rs" (setLength of
      lastIndexOf("/rs/") + 3). */
  function BaseUrl(requestUrl: string): string
  {
    var k := LastIndexOf(requestUrl, RsMarker);
    Truncated(requestUrl, k + 3)
  }

  function Depth(level: Level): nat
  {
    match level
    case Patient => 0
    case Study => 1
    case Series => 2
    case Instance => 3
  }

  /** The retrieve URL of a level, as the chain of overrides builds it. */
  function RetrieveUrlOf(level: Level, requestUrl: string, m: Match): string
    decreases Depth(level)
  {
    match level
    case Patient => BaseUrl(requestUrl)
    case Study => RetrieveUrlOf(Patient, requestUrl, m) + "/studies/" + AppendText(m.studyUid)
    case Series => RetrieveUrlOf(Study, requestUrl, m) + "/series/" + AppendText(m.seriesUid)
    case Instance => RetrieveUrlOf(Series, requestUrl, m) + "/instances/" + AppendText(m.sopUid)
  }

  /** retrieveURL: a new StringBuffer built by the override of `level` on top of
      the one of the level above. */
  method RetrieveUrl(level: Level, requestUrl: string, m: Match) returns (sb: StringBuffer)
    ensures fresh(sb) && sb.text == RetrieveUrlOf(level, requestUrl, m)
    decreases Depth(level)
  {
    match level {
      case Patient =>
        sb := new StringBuffer(requestUrl);
        var k := LastIndexOf(sb.text, RsMarker);
        sb.SetLength(k + 3);
      case Study =>
        sb := RetrieveUrl(Patient, requestUrl, m);
        sb.Append("/studies/");
        sb.Append(AppendText(m.studyUid));
      case Series =>
        sb := RetrieveUrl(Study, requestUrl, m);
        sb.Append("/series/");
        sb.Append(AppendText(m.seriesUid));
      case Instance =>
        sb := RetrieveUrl(Series, requestUrl, m);
        sb.Append("/instances/");
        sb.Append(AppendText(m.sopUid));
    }
  }

  /** addRetrieveURL: sets the RetrieveURL attribute, except at the PATIENT level,
      whose override does nothing. */
  function AddRetrieveUrl(level: Level, requestUrl: string, m: Match): (r: Match)
    ensures level == Patient ==> r == m
    ensures level != Patient ==>
      r.retrieveUrl == Some(RetrieveUrlOf(level, requestUrl, m)) &&
      r.studyUid == m.studyUid && r.seriesUid == m.seriesUid && r.sopUid == m.sopUid
  {
    if level == Patient then m else m.(retrieveUrl := Some(RetrieveUrlOf(level, requestUrl, m)))
  }

  /** For a request URL under "/rs/", the base is that URL up to and including the
      last "/rs", and what follows it in the request starts with '/' and holds no
      further "/rs/". */
  lemma BaseUrlOfService(requestUrl: string)
    requires Contains(requestUrl, RsMarker)
    ensures var b := BaseUrl(requestUrl);
      |b| >= 3 && b[|b| - 3..] == "/rs" && b == requestUrl[..|b|] &&
      |requestUrl| > |b| && requestUrl[|b|] == '/' &&
      forall k :: |b| - 3 < k <= |requestUrl| ==> !OccursAt(requestUrl, RsMarker, k)
  {
    var i := IndexOf(requestUrl, RsMarker);
    var k := LastIndexOf(requestUrl, RsMarker);
    assert k >= i >= 0;
    var b := BaseUrl(requestUrl);
    assert b == requestUrl[..k + 3];
    assert requestUrl[k..k + 4] == RsMarker;
    assert requestUrl[k..k + 3] == requestUrl[k..k + 4][..3] == "/rs";
    assert requestUrl[k + 3] == requestUrl[k..k + 4][3] == '/';
    assert b[|b| - 3..] == requestUrl[k..k + 3];
  }

  /** A deeper level's URL starts with the URL of every level above it. */
  lemma RetrieveUrlPrefix(upper: Level, lower: Level, requestUrl: string, m: Match)
    requires Depth(upper) <= Depth(lower)
    ensures var u := RetrieveUrlOf(upper, requestUrl, m);
      var l := RetrieveUrlOf(lower, requestUrl, m);
      |u| <= |l| && l[..|u|] == u
    decreases Depth(lower)
  {
    var u := RetrieveUrlOf(upper, requestUrl, m);
    var l := RetrieveUrlOf(lower, requestUrl, m);
    if Depth(upper) < Depth(lower) {
      var above := match lower
        case Study => Patient
        case Series => Study
        case Instance => Series
        case Patient => Patient;
      RetrieveUrlPrefix(upper, above, requestUrl, m);
      var a := RetrieveUrlOf(above, requestUrl, m);
      assert l[..|a|] == a;
      assert l[..|u|] == a[..|u|];
    }
  }

  /** A request URL without "/rs/" keeps only its first two characters (padded
      with '\u0000'), since lastIndexOf gives -1. */
  lemma BaseUrlWithoutService(requestUrl: string)
    requires !Contains(requestUrl, RsMarker)
    ensures BaseUrl(requestUrl) == Truncated(requestUrl, 2)
  {
    var k := LastIndexOf(requestUrl, RsMarker);
    if k >= 0 {
      ContainsAt(requestUrl, RsMarker, k);
    }
  }
}

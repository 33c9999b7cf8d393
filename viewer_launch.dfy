/** The browser-side launch logic of the OHIF viewer plugin (viewer.js): deciding
    whether a session's viewer manifest has anything to show, the chain of requests
    made when one session is opened, the fan-out and join made when a whole subject
    is opened, the viewer URL, and the angle of the "please wait" spinner. Requests
    are not sent: each handler is modelled as the step it takes when its reply
    arrives, and the reply is a parameter. */
module ViewerLaunch {
  import opened JavaText

  // ================================================================ manifest

  /** A series entry; `instanceCount` is the length of its `instances` array, None
      when the field is absent (reading its length then raises a TypeError). */
  datatype Series = Series(instanceCount: Option<nat>)

  /** A study entry; `series` is None when the field is missing or falsy. */
  datatype Study = Study(series: Option<seq<Series>>)

  /** The parsed manifest; `studies` is None when missing or falsy, and an element
      is None when that entry is null. */
  datatype Manifest = Manifest(studies: Option<seq<Option<Study>>>)

  predicate HasInstances(s: Series) { s.instanceCount.Some? && s.instanceCount.value > 0 }

  /** Series listed under this entry, or none when it is null or has no series. */
  function SeriesOf(st: Option<Study>): seq<Series>
  {
    if st.Some? && st.value.series.Some? then st.value.series.value else []
  }

  function StudiesOf(m: Manifest): seq<Option<Study>>
  {
    if m.studies.Some? then m.studies.value else []
  }

  /** Some series of this entry has at least one instance. */
  predicate StudyViewable(st: Option<Study>)
  {
    exists j :: 0 <= j < |SeriesOf(st)| && HasInstances(SeriesOf(st)[j])
  }

  /** The scan of this entry reaches a series without `instances` before finding
      one with instances: every earlier series has zero instances. */
  predicate StudyThrows(st: Option<Study>)
  {
    exists j :: 0 <= j < |SeriesOf(st)| && SeriesOf(st)[j].instanceCount.None? &&
      forall k :: 0 <= k < j ==> SeriesOf(st)[k].instanceCount == Some(0)
  }

  /** The manifest lists a non-null study holding a series with instances. */
  predicate HasViewableSeries(m: Manifest)
  {
    exists i :: 0 <= i < |StudiesOf(m)| && StudyViewable(StudiesOf(m)[i])
  }

  predicate ScanThrows(m: Manifest)
  {
    exists i :: 0 <= i < |StudiesOf(m)| && StudyThrows(StudiesOf(m)[i])
  }

  /** The scripting error `studyListEmpty` can raise. */
  datatype ScriptError = TypeError

  /** The verdict of studyListEmpty on `m`. */
  function Emptiness(m: Manifest): Result<bool, ScriptError>
  {
    if ScanThrows(m) then Err(TypeError) else Ok(!HasViewableSeries(m))
  }

  /** studyListEmpty: a manifest without `studies` is empty; otherwise it is empty
      exactly when no non-null study has a series with a non-zero instance count.
      Each study's series are scanned up to the first one with instances; reaching
      a series without an `instances` array raises a TypeError. */
  method StudyListEmpty(m: Manifest) returns (r: Result<bool, ScriptError>)
    ensures m.studies.None? ==> r == Ok(true)
    ensures r.Err? <==> ScanThrows(m)
    ensures r.Ok? ==> (r.value <==> !HasViewableSeries(m))
    ensures r == Emptiness(m)
  {
    if m.studies.None? {
      return Ok(true);
    }
    var studies := m.studies.value;
    assert StudiesOf(m) == studies;
    var empty := true;
    var i := 0;
    while i < |studies|
      invariant 0 <= i <= |studies|
      invariant empty <==> forall i' :: 0 <= i' < i ==> !StudyViewable(studies[i'])
      invariant forall i' :: 0 <= i' < i ==> !StudyThrows(studies[i'])
    {
      if studies[i].None? || studies[i].value.series.None? {
        i := i + 1;
        continue;
      }
      var series := studies[i].value.series.value;
      assert series == SeriesOf(studies[i]);
      var j := 0;
      var found := false;
      while j < |series| && !found
        invariant 0 <= j <= |series|
        invariant found ==> j > 0 && HasInstances(series[j - 1])
        invariant found ==> forall k :: 0 <= k < j - 1 ==> series[k].instanceCount == Some(0)
        invariant !found ==> forall k :: 0 <= k < j ==> series[k].instanceCount == Some(0)
      {
        if series[j].instanceCount.None? {
          assert StudyThrows(studies[i]);
          return Err(TypeError);
        }
        if series[j].instanceCount.value > 0 {
          found := true;
        }
        j := j + 1;
      }
      if found {
        empty := false;
        assert StudyViewable(studies[i]);
        assert !StudyThrows(studies[i]) by {
          forall j' | 0 <= j' < |series| && series[j'].instanceCount.None?
            ensures exists k :: 0 <= k < j' && series[k].instanceCount != Some(0)
          {
            assert j' >= j;
            assert series[j - 1].instanceCount != Some(0);
          }
        }
      }
      i := i + 1;
    }
    return Ok(empty);
  }

  // ================================================================ viewer URL

  /** One `name=value` pair of a query string. */
  function Param(name: string, value: string): string { name + "=" + value }

  function RenderPairs(ps: seq<(string, string)>): (r: seq<string>)
    ensures |r| == |ps|
    ensures forall k :: 0 <= k < |ps| ==> r[k] == Param(ps[k].0, ps[k].1)
  {
    if ps == [] then [] else [Param(ps[0].0, ps[0].1)] + RenderPairs(ps[1..])
  }

  /** The pairs of a query string, joined with '&'. */
  function QueryString(ps: seq<(string, string)>): string
  {
    JoinWith(RenderPairs(ps), "&")
  }

  /** Reads one `name=value` piece back, splitting at its first '='. */
  function ParsePair(piece: string): (string, string)
  {
    var e := IndexOfChar(piece, '=');
    if e < 0 then (piece, "") else (piece[..e], piece[e + 1..])
  }

  function ParsePieces(pieces: seq<string>): (r: seq<(string, string)>)
    ensures |r| == |pieces|
    ensures forall k :: 0 <= k < |pieces| ==> r[k] == ParsePair(pieces[k])
  {
    if pieces == [] then [] else [ParsePair(pieces[0])] + ParsePieces(pieces[1..])
  }

  /** How the viewer page reads the query string it is opened with. */
  function ParseQuery(q: string): seq<(string, string)>
  {
    ParsePieces(Pieces(q, "&"))
  }

  /** A pair that survives the round trip: the name holds neither separator and
      the value holds no '&'. */
  predicate PlainPair(p: (string, string))
  {
    '=' !in p.0 && '&' !in p.0 && '&' !in p.1
  }

  lemma ParsePairOfParam(name: string, value: string)
    requires '=' !in name
    ensures ParsePair(Param(name, value)) == (name, value)
  {
    var s := Param(name, value);
    var e := IndexOfChar(s, '=');
    assert s[|name|] == '=';
    assert e == |name|;
    assert s[..e] == name && s[e + 1..] == value;
  }

  /** Pieces joined with a one-character separator they do not hold split back
      into the same pieces. */
  lemma {:induction false} PiecesOfJoin(ps: seq<string>, c: char)
    requires |ps| > 0 && forall k :: 0 <= k < |ps| ==> c !in ps[k]
    ensures Pieces(JoinWith(ps, [c]), [c]) == ps
  {
    var s := JoinWith(ps, [c]);
    if |ps| == 1 {
      IndexOfAbsentChar(s, c);
    } else {
      var rest := JoinWith(ps[1..], [c]);
      assert s == ps[0] + [c] + rest;
      IndexOfFirstChar(ps[0], c, rest);
      var i := |ps[0]|;
      assert s[..i] == ps[0];
      assert s[i + 1..] == rest;
      PiecesOfJoin(ps[1..], c);
      assert ps == [ps[0]] + ps[1..];
    }
  }

  /** Reading back a query string built from plain pairs gives the same pairs. */
  lemma QueryRoundTrip(ps: seq<(string, string)>)
    requires |ps| > 0 && forall k :: 0 <= k < |ps| ==> PlainPair(ps[k])
    ensures ParseQuery(QueryString(ps)) == ps
  {
    var rendered := RenderPairs(ps);
    forall k | 0 <= k < |rendered| ensures '&' !in rendered[k] {
      assert rendered[k] == ps[k].0 + "=" + ps[k].1;
    }
    PiecesOfJoin(rendered, '&');
    forall k | 0 <= k < |ps| ensures ParsePair(rendered[k]) == ps[k] {
      ParsePairOfParam(ps[k].0, ps[k].1);
    }
  }

  /** A JavaScript value is truthy when present and not the empty string. */
  predicate Truthy(v: Option<string>) { v.Some? && v.value != "" }

  /** The parameters openSubjectView passes on. */
  function SubjectParams(subjectId: string, projectId: string): string
  {
    "?subjectId=" + subjectId + "&projectId=" + projectId
  }

  /** The parameters getLabelAndOpenViewer starts from. */
  function SessionParams(subjectId: string, projectId: string, experimentId: string): string
  {
    SubjectParams(subjectId, projectId) + "&experimentId=" + experimentId
  }

  /** Where openViewer sends the browser, and whether it opens a new tab (and then
      stops the spinner) or replaces the current page. */
  datatype Navigation = Navigation(path: string, newTab: bool, stopsSpinner: bool)

  /** openViewer: the path handed to the site-root resolver is "/VIEWER" followed by
      the parameters, with "&parentProjectId=" appended only for a truthy parent. */
  function OpenViewer(params: string, newTab: bool, parentProjectId: Option<string>): (n: Navigation)
    ensures n.newTab == newTab && n.stopsSpinner == newTab
    ensures |n.path| >= 7 + |params| && n.path[..7] == "/VIEWER" && n.path[7..7 + |params|] == params
    ensures Truthy(parentProjectId) <==> |n.path| > 7 + |params|
  {
    var p := if Truthy(parentProjectId) then params + "&parentProjectId=" + parentProjectId.value else params;
    Navigation("/VIEWER" + p, newTab, newTab)
  }

  /** Appending one more `&name=value` pair to a non-empty query string. */
  lemma QueryStringSnoc(ps: seq<(string, string)>, name: string, value: string)
    requires |ps| > 0
    ensures QueryString(ps + [(name, value)]) == QueryString(ps) + ("&" + name + "=") + value
  {
    assert RenderPairs(ps + [(name, value)]) == RenderPairs(ps) + [Param(name, value)];
    JoinWithSnoc(RenderPairs(ps), "&", Param(name, value));
  }

  /** The pairs a truthy parent project adds. */
  function ParentPairs(parent: Option<string>): seq<(string, string)>
  {
    if Truthy(parent) then [("parentProjectId", parent.value)] else []
  }

  /** openViewer on "?" + a query string: what follows "/VIEWER?" is the query
      string with the truthy parent project's pair appended. */
  lemma ViewerPathQuery(ps: seq<(string, string)>, newTab: bool, parent: Option<string>)
    requires |ps| > 0
    ensures var n := OpenViewer("?" + QueryString(ps), newTab, parent);
      |n.path| >= 8 && n.path[..8] == "/VIEWER?" && n.path[8..] == QueryString(ps + ParentPairs(parent))
  {
    if Truthy(parent) {
      ParentPathQuery(ps, parent.value);
    } else {
      assert ps + ParentPairs(parent) == ps;
      ViewerPrefix("?" + QueryString(ps), QueryString(ps));
    }
  }

  /** The truthy-parent case of ViewerPathQuery. */
  lemma ParentPathQuery(ps: seq<(string, string)>, parent: string)
    requires |ps| > 0
    ensures var params := "?" + QueryString(ps) + "&parentProjectId=" + parent;
      |"/VIEWER" + params| >= 8 && ("/VIEWER" + params)[..8] == "/VIEWER?" &&
      ("/VIEWER" + params)[8..] == QueryString(ps + [("parentProjectId", parent)])
  {
    var q := QueryString(ps);
    AppendParam("?" + q, ps, "parentProjectId", "&parentProjectId=", parent);
    var full := QueryString(ps + [("parentProjectId", parent)]);
    ViewerPrefix("?" + q + "&parentProjectId=" + parent, full);
  }

  /** Appending `&name=value` to "?" + a query string gives "?" + the query string
      of one pair more. */
  lemma AppendParam(params: string, ps: seq<(string, string)>, name: string, lit: string, value: string)
    requires |ps| > 0 && params == "?" + QueryString(ps) && lit == "&" + name + "="
    ensures params + lit + value == "?" + QueryString(ps + [(name, value)])
  {
    QueryStringSnoc(ps, name, value);
  }

  lemma ViewerPrefix(params: string, q: string)
    requires params == "?" + q
    ensures |"/VIEWER" + params| >= 8 && ("/VIEWER" + params)[..8] == "/VIEWER?" && ("/VIEWER" + params)[8..] == q
  {
    assert "/VIEWER" + params == "/VIEWER?" + q;
  }

  /** The subject view's URL carries the subject, the project and, when truthy, the
      parent project, and the viewer reads them back unchanged. */
  lemma SubjectViewQuery(subjectId: string, projectId: string, newTab: bool, parent: Option<string>)
    requires PlainPair(("subjectId", subjectId)) && PlainPair(("projectId", projectId))
    requires Truthy(parent) ==> PlainPair(("parentProjectId", parent.value))
    ensures var n := OpenViewer(SubjectParams(subjectId, projectId), newTab, parent);
      |n.path| >= 8 && n.path[..8] == "/VIEWER?" &&
      ParseQuery(n.path[8..]) == [("subjectId", subjectId), ("projectId", projectId)] + ParentPairs(parent)
  {
    var ps := [("subjectId", subjectId), ("projectId", projectId)];
    SubjectParamsQuery(subjectId, projectId);
    ViewerPathQuery(ps, newTab, parent);
    QueryRoundTrip(ps + ParentPairs(parent));
  }

  /** The pairs a session launch puts in the viewer URL before the parent project. */
  function SessionPairs(subjectId: string, projectId: string, experimentId: string,
                        sessionLabel: Option<string>): seq<(string, string)>
  {
    [("subjectId", subjectId), ("projectId", projectId), ("experimentId", experimentId)] +
    (if sessionLabel.Some? then [("experimentLabel", sessionLabel.value)] else [])
  }

  lemma SubjectParamsQuery(subjectId: string, projectId: string)
    ensures SubjectParams(subjectId, projectId) == "?" + QueryString([("subjectId", subjectId), ("projectId", projectId)])
  {
    var p1 := [("subjectId", subjectId)];
    QueryStringSnoc(p1, "projectId", projectId);
    assert p1 + [("projectId", projectId)] == [("subjectId", subjectId), ("projectId", projectId)];
    assert QueryString(p1) == "subjectId=" + subjectId;
    assert "&" + "projectId" + "=" == "&projectId=";
  }

  lemma SessionParamsQuery(subjectId: string, projectId: string, experimentId: string,
                           sessionLabel: Option<string>)
    ensures LabelledParams(SessionParams(subjectId, projectId, experimentId), sessionLabel) ==
      "?" + QueryString(SessionPairs(subjectId, projectId, experimentId, sessionLabel))
  {
    var p3 := [("subjectId", subjectId), ("projectId", projectId), ("experimentId", experimentId)];
    ExperimentParamsQuery(subjectId, projectId, experimentId);
    if sessionLabel.Some? {
      AppendParam(SessionParams(subjectId, projectId, experimentId), p3,
                  "experimentLabel", "&experimentLabel=", sessionLabel.value);
    } else {
      assert SessionPairs(subjectId, projectId, experimentId, sessionLabel) == p3;
    }
  }

  lemma ExperimentParamsQuery(subjectId: string, projectId: string, experimentId: string)
    ensures SessionParams(subjectId, projectId, experimentId) ==
      "?" + QueryString([("subjectId", subjectId), ("projectId", projectId), ("experimentId", experimentId)])
  {
    var p2 := [("subjectId", subjectId), ("projectId", projectId)];
    SubjectParamsQuery(subjectId, projectId);
    AppendParam(SubjectParams(subjectId, projectId), p2, "experimentId", "&experimentId=", experimentId);
    assert p2 + [("experimentId", experimentId)] ==
      [("subjectId", subjectId), ("projectId", projectId), ("experimentId", experimentId)];
  }

  /** A session's URL carries subject, project and experiment, then the label when
      it was fetched, then the truthy parent project, all read back unchanged. */
  lemma SessionViewQuery(subjectId: string, projectId: string, experimentId: string,
                         sessionLabel: Option<string>, newTab: bool, parent: Option<string>)
    requires PlainPair(("subjectId", subjectId)) && PlainPair(("projectId", projectId))
    requires PlainPair(("experimentId", experimentId))
    requires sessionLabel.Some? ==> PlainPair(("experimentLabel", sessionLabel.value))
    requires Truthy(parent) ==> PlainPair(("parentProjectId", parent.value))
    ensures var n := OpenViewer(LabelledParams(SessionParams(subjectId, projectId, experimentId), sessionLabel),
                                newTab, parent);
      |n.path| >= 8 && n.path[..8] == "/VIEWER?" &&
      ParseQuery(n.path[8..]) == SessionPairs(subjectId, projectId, experimentId, sessionLabel) + ParentPairs(parent)
  {
    var ps := SessionPairs(subjectId, projectId, experimentId, sessionLabel);
    SessionParamsQuery(subjectId, projectId, experimentId, sessionLabel);
    ViewerPathQuery(ps, newTab, parent);
    var all := ps + ParentPairs(parent);
    assert forall k :: 0 <= k < |all| ==> PlainPair(all[k]);
    QueryRoundTrip(all);
  }

  /** getLabelAndOpenViewer appends the label when the session lookup succeeded. */
  function LabelledParams(params: string, sessionLabel: Option<string>): string
  {
    if sessionLabel.Some? then params + "&experimentLabel=" + sessionLabel.value else params
  }

  // ================================================================ one session

  /** How a request ended: its load handler ran with an HTTP status, or it failed
      or was aborted before loading. */
  datatype Reply = Load(status: int) | Failed

  /** The replies the server gives to each request of one session launch; the
      session label is what the lookup's JSON holds at items[0].data_fields.label. */
  datatype Replies = Replies(exists_: Reply, generate: Reply, fetch: Reply,
                             manifest: Manifest, lookup: Reply, sessionLabel: string)

  datatype Request = ExistsCheck | Generate | FetchManifest | LabelLookup

  /** How a launch ends: the browser navigates, the "No viewable scans" notice is
      shown, the spinner is stopped, a handler raises a scripting error, or nothing
      further happens (a failure that no listener handles). */
  datatype Final = Navigate(nav: Navigation) | NoViewableScans | Stopped | Raised | Stalled

  datatype Flow = Flow(requests: seq<Request>, final: Final)

  /** The step checkSessionJSON takes when the existence check loads. */
  datatype Next = Validate | GenerateManifest | Stop

  /** Existence check: 200 goes on to validation, 404 to generation, anything else
      (403 included) stops the spinner. */
  function AfterExistsCheck(status: int): (n: Next)
    ensures n == Validate <==> status == 200
    ensures n == GenerateManifest <==> status == 404
    ensures n == Stop <==> status != 200 && status != 404
  {
    if status == 200 then Validate
    else if status == 404 then GenerateManifest
    else Stop
  }

  /** generateJSONOpenViewer: 200 goes on to validation, anything else stops. */
  function AfterGeneration(status: int): (n: Next)
    ensures n == Validate <==> status == 200
    ensures n != GenerateManifest
  {
    if status == 200 then Validate else Stop
  }

  /** getLabelAndOpenViewer followed by openViewer: the label is appended only when
      the lookup returned 200; the viewer opens whatever the status, but not when
      the lookup failed (that request has no failure listener). */
  function LabelStep(l: Launch, r: Replies): (f: Flow)
    ensures f.requests == [LabelLookup]
    ensures f.final.Navigate? <==> r.lookup.Load?
  {
    var params := SessionParams(l.subjectId, l.projectId, l.experimentId);
    match r.lookup
    case Failed => Flow([LabelLookup], Stalled)
    case Load(st) =>
      var sessionLabel := if st == 200 then Some(r.sessionLabel) else None;
      Flow([LabelLookup], Navigate(OpenViewer(LabelledParams(params, sessionLabel), l.newTab, l.parentProjectId)))
  }

  /** checkJSONAndOpenViewer: a 200 manifest is scanned; an empty one shows the
      notice, a viewable one goes on to the label lookup; any other status or a
      failure stops the spinner. */
  function ValidateStep(l: Launch, r: Replies): (f: Flow)
    ensures |f.requests| >= 1 && f.requests[0] == FetchManifest
    ensures Generate !in f.requests && ExistsCheck !in f.requests
    // a failed fetch or any status but 200 stops the spinner
    ensures r.fetch.Failed? || r.fetch.status != 200 ==> f == Flow([FetchManifest], Stopped)
    // a 200 manifest whose scan raises ends in the scripting error
    ensures r.fetch == Load(200) && ScanThrows(r.manifest) ==> f == Flow([FetchManifest], Raised)
    // a 200 manifest with nothing viewable shows the notice
    ensures r.fetch == Load(200) && !ScanThrows(r.manifest) && !HasViewableSeries(r.manifest) ==>
      f == Flow([FetchManifest], NoViewableScans)
    // a viewable manifest goes on to the label lookup, which opens the viewer when it loads
    ensures r.fetch == Load(200) && !ScanThrows(r.manifest) && HasViewableSeries(r.manifest) ==>
      f.requests == [FetchManifest, LabelLookup] && (f.final.Navigate? <==> r.lookup.Load?)
  {
    match r.fetch
    case Failed => Flow([FetchManifest], Stopped)
    case Load(st) =>
      if st != 200 then Flow([FetchManifest], Stopped)
      else match Emptiness(r.manifest)
        case Err(_) => Flow([FetchManifest], Raised)
        case Ok(empty) =>
          if empty then Flow([FetchManifest], NoViewableScans)
          else var g := LabelStep(l, r); Flow([FetchManifest] + g.requests, g.final)
  }

  /** The identifiers one session launch carries. */
  datatype Launch = Launch(newTab: bool, projectId: string, subjectId: string,
                           experimentId: string, parentProjectId: Option<string>)

  /** checkSessionJSON and the chain of requests it starts, given the replies. */
  function SessionLaunch(l: Launch, r: Replies): (f: Flow)
    ensures |f.requests| >= 1 && f.requests[0] == ExistsCheck
    // 403 and every other status, or a failed check: the spinner stops, nothing more is asked
    ensures r.exists_.Failed? || (r.exists_.status != 200 && r.exists_.status != 404) ==>
      f == Flow([ExistsCheck], Stopped)
    // 200: validation follows directly, the manifest is never generated
    ensures r.exists_ == Load(200) ==> |f.requests| >= 2 && f.requests[1] == FetchManifest && Generate !in f.requests
    // 404: generation is requested exactly once, right after the check
    ensures r.exists_ == Load(404) ==>
      |f.requests| >= 2 && f.requests[1] == Generate && Generate !in f.requests[2..]
    // the viewer only opens on a manifest that has something to show
    ensures f.final.Navigate? ==> HasViewableSeries(r.manifest) && !ScanThrows(r.manifest)
    // and it does open once every step succeeds
    ensures r.exists_ == Load(200) && r.fetch == Load(200) && HasViewableSeries(r.manifest)
            && !ScanThrows(r.manifest) && r.lookup.Load?
            ==> f.final.Navigate?
  {
    match r.exists_
    case Failed => Flow([ExistsCheck], Stopped)
    case Load(st) =>
      match AfterExistsCheck(st)
      case Stop => Flow([ExistsCheck], Stopped)
      case Validate =>
        var v := ValidateStep(l, r);
        Flow([ExistsCheck] + v.requests, v.final)
      case GenerateManifest =>
        match r.generate
        case Failed => Flow([ExistsCheck, Generate], Stalled)
        case Load(gs) =>
          if AfterGeneration(gs) == Validate then
            var v := ValidateStep(l, r);
            Flow([ExistsCheck, Generate] + v.requests, v.final)
          else Flow([ExistsCheck, Generate], Stopped)
  }

  // ================================================================ whole subject

  /** One entry of the subject's experiment list. */
  datatype Experiment = Experiment(id: string, sessionLabel: string)

  /** The load handler of checkSubjectForSessionJSON's listing request and the
      existence checks it fans out, one per experiment; a 404 answer means the
      session's manifest must be generated. The join (sessionsChecked reaching the
      list length) starts generation. */
  class SubjectCheck {
    const experiments: seq<Experiment>
    /** The loop's function-scoped `experimentId` and `experimentLabel` bindings,
        shared by every callback. */
    var experimentId: string
    var experimentLabel: string
    var requestsSent: nat
    var sessionsChecked: nat
    var sessionsThatNeedJson: seq<Experiment>
    /** Number of times generateJSONOpenSubjectViewer was started. */
    var joins: nat
    /** The completed existence checks in arrival order: request index and status. */
    ghost var arrivals: seq<(nat, int)>

    ghost predicate Valid()
      reads this
    {
      sessionsChecked == |arrivals| <= requestsSent <= |experiments| &&
      (forall a :: a in arrivals ==> a.0 < requestsSent) &&
      (forall p, q :: 0 <= p < q < |arrivals| ==> arrivals[p].0 != arrivals[q].0) &&
      joins == (if 0 < |experiments| == sessionsChecked then 1 else 0)
    }

    constructor (experiments: seq<Experiment>)
      ensures Valid() && this.experiments == experiments
      ensures requestsSent == 0 && sessionsChecked == 0 && sessionsThatNeedJson == [] && joins == 0
    {
      this.experiments := experiments;
      experimentId, experimentLabel := "", "";
      requestsSent, sessionsChecked := 0, 0;
      sessionsThatNeedJson := [];
      joins := 0;
      arrivals := [];
    }

    /** The listing's load handler: one existence check per experiment, in list
        order; afterwards the shared bindings hold the last experiment. An empty
        list sends nothing, so nothing ever joins. */
    method SendChecks()
      requires Valid() && requestsSent == 0
      modifies this
      ensures Valid() && requestsSent == |experiments| && joins == 0
      ensures sessionsChecked == old(sessionsChecked) && sessionsThatNeedJson == old(sessionsThatNeedJson)
      ensures arrivals == old(arrivals)
      ensures |experiments| > 0 ==>
        experimentId == experiments[|experiments| - 1].id &&
        experimentLabel == experiments[|experiments| - 1].sessionLabel
    {
      var i := 0;
      while i < |experiments|
        invariant 0 <= i <= |experiments| && requestsSent == i
        invariant i > 0 ==> experimentId == experiments[i - 1].id && experimentLabel == experiments[i - 1].sessionLabel
        invariant sessionsChecked == old(sessionsChecked) && sessionsThatNeedJson == old(sessionsThatNeedJson)
        invariant arrivals == old(arrivals) && joins == old(joins)
        invariant Valid()
      {
        experimentId := experiments[i].id;
        experimentLabel := experiments[i].sessionLabel;
        requestsSent := requestsSent + 1;
        i := i + 1;
      }
    }

    /** The corrected entry point: a subject without experiments goes straight to
        generation (which then opens the subject view, as nothing needs generating). */
    method Start()
      requires Valid() && requestsSent == 0 && sessionsChecked == 0 && sessionsThatNeedJson == []
      modifies this
      ensures requestsSent == |experiments| && sessionsThatNeedJson == []
      ensures joins == 1 <==> |experiments| == 0
      ensures |experiments| > 0 ==> Valid()
    {
      if |experiments| == 0 {
        joins := 1;
      } else {
        SendChecks();
      }
    }

    /** The existence check's load handler as written: on 404 it records the
        experiment held by the shared bindings, whichever request loaded. */
    method OnExistsLoadAsWritten(i: nat, status: int)
      requires Valid() && i < requestsSent && forall a :: a in arrivals ==> a.0 != i
      requires sessionsChecked < requestsSent
      modifies this
      ensures Valid() && arrivals == old(arrivals) + [(i, status)]
      ensures sessionsThatNeedJson == old(sessionsThatNeedJson) +
        (if status == 404 then [Experiment(experimentId, experimentLabel)] else [])
      ensures experimentId == old(experimentId) && experimentLabel == old(experimentLabel)
      ensures sessionsChecked == old(sessionsChecked) + 1 && requestsSent == old(requestsSent)
      ensures joins == old(joins) + (if sessionsChecked == |experiments| then 1 else 0)
    {
      if status == 404 {
        sessionsThatNeedJson := sessionsThatNeedJson + [Experiment(experimentId, experimentLabel)];
      }
      Arrive(i, status);
    }

    /** The existence check's load handler with a per-request binding: on 404 it
        records the experiment request `i` asked about. */
    method OnExistsLoad(i: nat, status: int)
      requires Valid() && i < requestsSent && forall a :: a in arrivals ==> a.0 != i
      requires sessionsChecked < requestsSent
      requires sessionsThatNeedJson == NeedingJson(experiments, arrivals)
      modifies this
      ensures Valid() && arrivals == old(arrivals) + [(i, status)]
      ensures sessionsThatNeedJson == NeedingJson(experiments, arrivals)
      ensures sessionsChecked == old(sessionsChecked) + 1 && requestsSent == old(requestsSent)
      ensures joins == old(joins) + (if sessionsChecked == |experiments| then 1 else 0)
    {
      if status == 404 {
        sessionsThatNeedJson := sessionsThatNeedJson + [experiments[i]];
      }
      Arrive(i, status);
      assert arrivals[..|arrivals| - 1] == old(arrivals);
    }

    method Arrive(i: nat, status: int)
      requires Valid() && i < requestsSent && forall a :: a in arrivals ==> a.0 != i
      requires sessionsChecked < requestsSent
      modifies this`sessionsChecked, this`joins, this`arrivals
      ensures Valid() && arrivals == old(arrivals) + [(i, status)]
      ensures sessionsChecked == old(sessionsChecked) + 1
      ensures joins == old(joins) + (if sessionsChecked == |experiments| then 1 else 0)
    {
      arrivals := arrivals + [(i, status)];
      sessionsChecked := sessionsChecked + 1;
      if sessionsChecked == |experiments| {
        joins := joins + 1;
      }
    }
  }

  /** The experiments whose existence check answered 404, in arrival order. */
  ghost function NeedingJson(experiments: seq<Experiment>, arrivals: seq<(nat, int)>): seq<Experiment>
    requires forall a :: a in arrivals ==> a.0 < |experiments|
  {
    if arrivals == [] then []
    else
      var last := arrivals[|arrivals| - 1];
      NeedingJson(experiments, arrivals[..|arrivals| - 1]) +
        (if last.1 == 404 then [experiments[last.0]] else [])
  }

  /** At the join every request has arrived exactly once, so the list holds
      exactly the experiments that answered 404. */
  lemma {:induction false} NeedingJsonMembers(experiments: seq<Experiment>, arrivals: seq<(nat, int)>, e: Experiment)
    requires forall a :: a in arrivals ==> a.0 < |experiments|
    ensures e in NeedingJson(experiments, arrivals) <==>
      exists a :: a in arrivals && a.1 == 404 && experiments[a.0] == e
  {
    if arrivals != [] {
      var init := arrivals[..|arrivals| - 1];
      assert forall a :: a in init ==> a in arrivals;
      NeedingJsonMembers(experiments, init, e);
      assert arrivals == init + [arrivals[|arrivals| - 1]];
    }
  }

  /** Two sessions, the first answering 404: the handler as written records the
      second session, the corrected one records the first. */
  method SharedBindingCounterexample() returns (asWritten: seq<Experiment>, corrected: seq<Experiment>)
    ensures asWritten == [Experiment("E2", "second")]
    ensures corrected == [Experiment("E1", "first")]
  {
    var list := [Experiment("E1", "first"), Experiment("E2", "second")];
    var a := new SubjectCheck(list);
    a.SendChecks();
    a.OnExistsLoadAsWritten(0, 404);
    asWritten := a.sessionsThatNeedJson;
    var b := new SubjectCheck(list);
    b.SendChecks();
    assert b.sessionsThatNeedJson == NeedingJson(list, b.arrivals);
    b.OnExistsLoad(0, 404);
    corrected := b.sessionsThatNeedJson;
  }

  /** A subject without experiments: as written nothing ever starts generation;
      the corrected entry point starts it at once. */
  method EmptySubjectCounterexample() returns (asWrittenJoins: nat, correctedJoins: nat)
    ensures asWrittenJoins == 0 && correctedJoins == 1
  {
    var a := new SubjectCheck([]);
    a.SendChecks();
    asWrittenJoins := a.joins;
    var b := new SubjectCheck([]);
    b.Start();
    correctedJoins := b.joins;
  }

  const GeneratingPrefix: string := "Generating missing viewer metadata for sessions:"

  /** The labels of the sessions to generate, each preceded by a space. */
  function SpacedLabels(needs: seq<Experiment>): (r: string)
    ensures |needs| > 0 ==> |r| > 0 && r[0] == ' '
  {
    if needs == [] then [] else SpacedLabels(needs[..|needs| - 1]) + " " + needs[|needs| - 1].sessionLabel
  }

  /** generateJSONOpenSubjectViewer and the handlers of the generation requests it
      sends: the subject view opens when the number of 200 answers reaches the
      number of sessions to generate; every other answer re-shows the progress
      dialog. */
  class SubjectGeneration {
    const needs: seq<Experiment>
    var message: string
    var requestsSent: nat
    var sessionsGenerated: nat
    var loads: nat
    /** Number of times openSubjectView was called. */
    var viewsOpened: nat
    var dialogs: nat

    ghost predicate Valid()
      reads this
    {
      sessionsGenerated <= loads <= requestsSent <= |needs| &&
      viewsOpened == (if |needs| == 0 || (loads > 0 && sessionsGenerated == |needs|) then 1 else 0)
    }

    /** Starts generation: with nothing to generate the subject view opens at once
        and no request is sent; otherwise the message names every session and one
        request per session goes out. */
    constructor (needs: seq<Experiment>)
      ensures Valid() && this.needs == needs && loads == 0 && sessionsGenerated == 0
      ensures viewsOpened == (if |needs| == 0 then 1 else 0)
      ensures requestsSent == |needs|
      ensures |needs| > 0 ==> message == GeneratingPrefix + SpacedLabels(needs) && dialogs == 1
    {
      this.needs := needs;
      sessionsGenerated, loads, requestsSent := 0, 0, 0;
      message := "";
      dialogs := 0;
      viewsOpened := 0;
      new;
      if |needs| == 0 {
        viewsOpened := 1;
        return;
      }
      var m := GeneratingPrefix;
      var i := 0;
      while i < |needs|
        invariant 0 <= i <= |needs|
        invariant m == GeneratingPrefix + SpacedLabels(needs[..i])
      {
        assert needs[..i + 1][..i] == needs[..i];
        m := m + " " + needs[i].sessionLabel;
        i := i + 1;
      }
      assert needs[..i] == needs;
      message := m;
      dialogs := 1;
      requestsSent := |needs|;
    }

    /** A generation request loaded with `status`. */
    method OnGenerateLoad(status: int)
      requires Valid() && loads < requestsSent
      modifies this`sessionsGenerated, this`loads, this`viewsOpened, this`dialogs
      ensures Valid() && loads == old(loads) + 1
      ensures sessionsGenerated == old(sessionsGenerated) + (if status == 200 then 1 else 0)
      ensures viewsOpened == (if sessionsGenerated == |needs| then 1 else 0)
      ensures dialogs == old(dialogs) + (if sessionsGenerated == |needs| then 0 else 1)
    {
      loads := loads + 1;
      if status == 200 {
        sessionsGenerated := sessionsGenerated + 1;
      }
      if sessionsGenerated == |needs| {
        viewsOpened := viewsOpened + 1;
      } else {
        dialogs := dialogs + 1;
      }
    }
  }

  /** Count of the statuses equal to 200. */
  function CountOk(statuses: seq<int>): (n: nat)
    ensures n <= |statuses|
    ensures n == |statuses| <==> forall k :: 0 <= k < |statuses| ==> statuses[k] == 200
  {
    if statuses == [] then 0
    else CountOk(statuses[..|statuses| - 1]) + (if statuses[|statuses| - 1] == 200 then 1 else 0)
  }

  /** Once every generation request has loaded, the subject view has viewsOpened exactly
      once if all of them answered 200, and never otherwise. */
  method GenerateAll(needs: seq<Experiment>, statuses: seq<int>) returns (viewsOpened: nat)
    requires |statuses| == |needs| > 0
    ensures viewsOpened == (if forall k :: 0 <= k < |statuses| ==> statuses[k] == 200 then 1 else 0)
  {
    var g := new SubjectGeneration(needs);
    var i := 0;
    while i < |statuses|
      invariant 0 <= i <= |statuses|
      invariant g.Valid() && g.needs == needs && g.requestsSent == |needs|
      invariant g.loads == i && g.sessionsGenerated == CountOk(statuses[..i])
      modifies g
    {
      assert statuses[..i + 1][..i] == statuses[..i];
      g.OnGenerateLoad(statuses[i]);
      i := i + 1;
    }
    assert statuses[..i] == statuses;
    viewsOpened := g.viewsOpened;
  }

  // ================================================================ spinner

  /** The "please wait" overlay of the page body. */
  class PleaseWait {
    var initialised: bool
    var degrees: int
    var increment: int
    var timerRunning: bool
    var visible: bool

    predicate AngleInRange()
      reads this
    {
      1 <= degrees <= 359
    }

    constructor ()
      ensures !initialised && !timerRunning && !visible
    {
      initialised, timerRunning, visible := false, false, false;
      degrees, increment := 1, 2;
    }

    /** init: does nothing on an element that already carries the spinner;
        otherwise the angle starts at 1 and the spinner starts. */
    method Init(increment: int)
      modifies this
      ensures old(initialised) ==>
        degrees == old(degrees) && this.increment == old(this.increment) &&
        timerRunning == old(timerRunning) && visible == old(visible)
      ensures initialised
      ensures !old(initialised) ==> degrees == 1 && this.increment == increment && timerRunning && visible
    {
      if initialised {
        return;
      }
      initialised := true;
      degrees := 1;
      this.increment := increment;
      Start();
    }

    method Start()
      modifies this`timerRunning, this`visible
      ensures initialised ==> timerRunning && visible
      ensures !initialised ==> timerRunning == old(timerRunning) && visible == old(visible)
    {
      if !initialised {
        return;
      }
      timerRunning, visible := true, true;
    }

    method Stop()
      modifies this`timerRunning, this`visible
      ensures initialised ==> !timerRunning && !visible
      ensures !initialised ==> timerRunning == old(timerRunning) && visible == old(visible)
    {
      if !initialised {
        return;
      }
      timerRunning, visible := false, false;
    }

    /** One timer tick: the angle advances by the increment and wraps to 1 once it
        passes 359. */
    method Draw()
      modifies this`degrees
      ensures !initialised ==> degrees == old(degrees)
      ensures initialised ==> degrees == (if old(degrees) + increment > 359 then 1 else old(degrees) + increment)
      ensures old(AngleInRange()) && increment >= 0 ==> AngleInRange()
    {
      if !initialised {
        return;
      }
      degrees := degrees + increment;
      if degrees > 359 {
        degrees := 1;
      }
    }

    method Remove()
      modifies this`initialised, this`timerRunning, this`visible
      ensures !initialised && (old(initialised) ==> !timerRunning && !visible)
    {
      if initialised {
        timerRunning, visible := false, false;
        initialised := false;
      }
    }
  }

  /** With a non-negative increment the angle stays within [1, 359] however many
      ticks run. */
  method Spin(increment: int, ticks: nat) returns (degrees: int)
    requires increment >= 0
    ensures 1 <= degrees <= 359
  {
    var w := new PleaseWait();
    w.Init(increment);
    var t := 0;
    while t < ticks
      invariant w.initialised && w.increment == increment && w.AngleInRange()
      modifies w
    {
      w.Draw();
      t := t + 1;
    }
    degrees := w.degrees;
  }
}

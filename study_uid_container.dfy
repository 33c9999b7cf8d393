/** Where a DICOM study lives in the archive: project, subject and session, by
    id and by label, and the session's XSI type. Every field that is set must
    be a non-empty string; containers are ordered by their ids or, with the
    label comparator, by their labels. */
module StudyUids {
  import opened JavaText

  /** Three strings compared in turn. */
  datatype Key3 = Key3(first: string, second: string, third: string)

  /** The first non-zero String.compareTo of the three parts, else the last. */
  function CompareKeys(a: Key3, b: Key3): int
  {
    if JavaText.CompareTo(a.first, b.first) != 0 then JavaText.CompareTo(a.first, b.first)
    else if JavaText.CompareTo(a.second, b.second) != 0 then JavaText.CompareTo(a.second, b.second)
    else JavaText.CompareTo(a.third, b.third)
  }

  /** The comparison is zero exactly for equal keys. */
  lemma CompareKeysZero(a: Key3, b: Key3)
    ensures CompareKeys(a, b) == 0 <==> a == b
  {
    CompareToZero(a.first, b.first);
    CompareToZero(a.second, b.second);
    CompareToZero(a.third, b.third);
  }

  /** Swapping the keys negates the comparison. */
  lemma CompareKeysAntisymmetric(a: Key3, b: Key3)
    ensures CompareKeys(a, b) == -CompareKeys(b, a)
  {
    CompareToAntisymmetric(a.first, b.first);
    CompareToAntisymmetric(a.second, b.second);
    CompareToAntisymmetric(a.third, b.third);
  }

  /** The comparison is a strict order. */
  lemma CompareKeysTransitive(a: Key3, b: Key3, c: Key3)
    requires CompareKeys(a, b) < 0 && CompareKeys(b, c) < 0
    ensures CompareKeys(a, c) < 0
  {
    CompareToZero(a.first, b.first);
    CompareToZero(b.first, c.first);
    CompareToZero(a.second, b.second);
    CompareToZero(b.second, c.second);
    if a.first != b.first && b.first != c.first {
      CompareToTransitive(a.first, b.first, c.first);
    } else if a.first != b.first || b.first != c.first {
    } else if a.second != b.second && b.second != c.second {
      CompareToTransitive(a.second, b.second, c.second);
    } else if a.second != b.second || b.second != c.second {
    } else {
      CompareToTransitive(a.third, b.third, c.third);
    }
  }

  /** checkValid: null or empty values are refused with the field's name. */
  function CheckValid(value: Option<string>, name: string): (r: Option<string>)
    ensures r.None? <==> value.Some? && value.value != []
    ensures r.Some? ==> r.value == name + " null or empty"
  {
    if value.None? || value.value == [] then Some(name + " null or empty") else None
  }

  class StudyUidContainer {
    var projectId: string
    var subjectId: string
    var subjectLabel: string
    var sessionId: string
    var sessionLabel: string
    var xsiType: string

    /** The no-argument constructor: every field empty. */
    constructor Default()
      ensures projectId == "" && subjectId == "" && subjectLabel == ""
      ensures sessionId == "" && sessionLabel == "" && xsiType == ""
    {
      projectId, subjectId, subjectLabel := "", "", "";
      sessionId, sessionLabel, xsiType := "", "", "";
    }

    /** The six-argument constructor, once each value passed checkValid. */
    constructor (projectId: string, subjectId: string, subjectLabel: string,
                 sessionId: string, sessionLabel: string, xsiType: string)
      requires projectId != [] && subjectId != [] && subjectLabel != []
      requires sessionId != [] && sessionLabel != [] && xsiType != []
      ensures this.projectId == projectId && this.subjectId == subjectId && this.subjectLabel == subjectLabel
      ensures this.sessionId == sessionId && this.sessionLabel == sessionLabel && this.xsiType == xsiType
    {
      this.projectId, this.subjectId, this.subjectLabel := projectId, subjectId, subjectLabel;
      this.sessionId, this.sessionLabel, this.xsiType := sessionId, sessionLabel, xsiType;
    }

    /** The key compareTo orders by. */
    function IdKey(): Key3
      reads this
    {
      Key3(projectId, subjectId, sessionId)
    }

    /** The key LabelComparator orders by. */
    function LabelKey(): Key3
      reads this
    {
      Key3(projectId, subjectLabel, sessionLabel)
    }

    /** equals: the same object, or another container whose six fields are
        all equal. */
    predicate Equals(other: StudyUidContainer?)
      reads this, other
      ensures Equals(other) <==> (other != null && projectId == other.projectId &&
                                   subjectId == other.subjectId && sessionId == other.sessionId &&
                                   subjectLabel == other.subjectLabel && sessionLabel == other.sessionLabel &&
                                   xsiType == other.xsiType)
    {
      if this == other then true
      else if other == null then false
      else (projectId == other.projectId && subjectId == other.subjectId &&
            sessionId == other.sessionId && subjectLabel == other.subjectLabel &&
            sessionLabel == other.sessionLabel && xsiType == other.xsiType)
    }

    /** compareTo: zero for an equal container, otherwise by project id, then
        subject id, then session id. */
    function CompareTo(other: StudyUidContainer): (r: int)
      reads this, other
      ensures r == 0 <==> IdKey() == other.IdKey()
    {
      CompareKeysZero(IdKey(), other.IdKey());
      if other.Equals(this) then 0 else CompareKeys(IdKey(), other.IdKey())
    }

    method SetProjectId(value: Option<string>) returns (r: Option<string>)
      modifies this
      ensures r == CheckValid(value, "Project ID")
      ensures r.None? ==> projectId == value.value
      ensures r.Some? ==> projectId == old(projectId)
      ensures subjectId == old(subjectId) && subjectLabel == old(subjectLabel) && sessionId == old(sessionId)
      ensures sessionLabel == old(sessionLabel) && xsiType == old(xsiType)
    {
      r := CheckValid(value, "Project ID");
      if r.None? {
        projectId := value.value;
      }
    }

    method SetSubjectId(value: Option<string>) returns (r: Option<string>)
      modifies this
      ensures r == CheckValid(value, "Subject ID")
      ensures r.None? ==> subjectId == value.value
      ensures r.Some? ==> subjectId == old(subjectId)
      ensures projectId == old(projectId) && subjectLabel == old(subjectLabel) && sessionId == old(sessionId)
      ensures sessionLabel == old(sessionLabel) && xsiType == old(xsiType)
    {
      r := CheckValid(value, "Subject ID");
      if r.None? {
        subjectId := value.value;
      }
    }

    method SetSubjectLabel(value: Option<string>) returns (r: Option<string>)
      modifies this
      ensures r == CheckValid(value, "Subject Label")
      ensures r.None? ==> subjectLabel == value.value
      ensures r.Some? ==> subjectLabel == old(subjectLabel)
      ensures projectId == old(projectId) && subjectId == old(subjectId) && sessionId == old(sessionId)
      ensures sessionLabel == old(sessionLabel) && xsiType == old(xsiType)
    {
      r := CheckValid(value, "Subject Label");
      if r.None? {
        subjectLabel := value.value;
      }
    }

    method SetSessionId(value: Option<string>) returns (r: Option<string>)
      modifies this
      ensures r == CheckValid(value, "Session ID")
      ensures r.None? ==> sessionId == value.value
      ensures r.Some? ==> sessionId == old(sessionId)
      ensures projectId == old(projectId) && subjectId == old(subjectId) && subjectLabel == old(subjectLabel)
      ensures sessionLabel == old(sessionLabel) && xsiType == old(xsiType)
    {
      r := CheckValid(value, "Session ID");
      if r.None? {
        sessionId := value.value;
      }
    }

    method SetSessionLabel(value: Option<string>) returns (r: Option<string>)
      modifies this
      ensures r == CheckValid(value, "Session Label")
      ensures r.None? ==> sessionLabel == value.value
      ensures r.Some? ==> sessionLabel == old(sessionLabel)
      ensures projectId == old(projectId) && subjectId == old(subjectId) && subjectLabel == old(subjectLabel)
      ensures sessionId == old(sessionId) && xsiType == old(xsiType)
    {
      r := CheckValid(value, "Session Label");
      if r.None? {
        sessionLabel := value.value;
      }
    }

    method SetXsiType(value: Option<string>) returns (r: Option<string>)
      modifies this
      ensures r == CheckValid(value, "XSI Type")
      ensures r.None? ==> xsiType == value.value
      ensures r.Some? ==> xsiType == old(xsiType)
      ensures projectId == old(projectId) && subjectId == old(subjectId) && subjectLabel == old(subjectLabel)
      ensures sessionId == old(sessionId) && sessionLabel == old(sessionLabel)
    {
      r := CheckValid(value, "XSI Type");
      if r.None? {
        xsiType := value.value;
      }
    }
  }

  /** The message of the first argument the six-argument constructor refuses,
      checked in parameter order. */
  function FirstInvalid(projectId: Option<string>, subjectId: Option<string>, subjectLabel: Option<string>,
                        sessionId: Option<string>, sessionLabel: Option<string>, xsiType: Option<string>): (r: Option<string>)
    ensures r.None? <==> (CheckValid(projectId, "").None? && CheckValid(subjectId, "").None? &&
                          CheckValid(subjectLabel, "").None? && CheckValid(sessionId, "").None? &&
                          CheckValid(sessionLabel, "").None? && CheckValid(xsiType, "").None?)
  {
    if CheckValid(projectId, "Project ID").Some? then CheckValid(projectId, "Project ID")
    else if CheckValid(subjectId, "Subject ID").Some? then CheckValid(subjectId, "Subject ID")
    else if CheckValid(subjectLabel, "Subject Label").Some? then CheckValid(subjectLabel, "Subject Label")
    else if CheckValid(sessionId, "Session ID").Some? then CheckValid(sessionId, "Session ID")
    else if CheckValid(sessionLabel, "Session Label").Some? then CheckValid(sessionLabel, "Session Label")
    else CheckValid(xsiType, "XSI Type")
  }

  /** The six-argument constructor: an IllegalArgumentException naming the
      first null or empty argument, otherwise a container holding the six
      values. */
  method Create(projectId: Option<string>, subjectId: Option<string>, subjectLabel: Option<string>,
                sessionId: Option<string>, sessionLabel: Option<string>, xsiType: Option<string>)
    returns (r: Result<StudyUidContainer, string>)
    ensures r.Err? <==> FirstInvalid(projectId, subjectId, subjectLabel, sessionId, sessionLabel, xsiType).Some?
    ensures r.Err? ==> Some(r.error) == FirstInvalid(projectId, subjectId, subjectLabel, sessionId, sessionLabel, xsiType)
    ensures r.Ok? ==> (fresh(r.value) && r.value.projectId == projectId.value && r.value.subjectId == subjectId.value &&
                       r.value.subjectLabel == subjectLabel.value && r.value.sessionId == sessionId.value &&
                       r.value.sessionLabel == sessionLabel.value && r.value.xsiType == xsiType.value)
  {
    var invalid := FirstInvalid(projectId, subjectId, subjectLabel, sessionId, sessionLabel, xsiType);
    if invalid.Some? {
      return Err(invalid.value);
    }
    var c := new StudyUidContainer(projectId.value, subjectId.value, subjectLabel.value,
                                   sessionId.value, sessionLabel.value, xsiType.value);
    return Ok(c);
  }

  /** LabelComparator.compare: zero for equal containers, otherwise by project
      id, then subject label, then session label. */
  function CompareLabels(a: StudyUidContainer, b: StudyUidContainer): (r: int)
    reads a, b
    ensures r == 0 <==> a.LabelKey() == b.LabelKey()
  {
    CompareKeysZero(a.LabelKey(), b.LabelKey());
    if a.Equals(b) then 0 else CompareKeys(a.LabelKey(), b.LabelKey())
  }

  /** The equality shortcut in compareTo never changes its answer: it is the
      comparison of (project id, subject id, session id). So it is zero exactly
      when those three ids agree, even for containers that differ in a label
      or the XSI type and so are not equal. */
  lemma CompareToByIds(a: StudyUidContainer, b: StudyUidContainer)
    ensures a.CompareTo(b) == CompareKeys(a.IdKey(), b.IdKey())
    ensures a.CompareTo(b) == 0 <==>
      a.projectId == b.projectId && a.subjectId == b.subjectId && a.sessionId == b.sessionId
  {
    CompareKeysZero(a.IdKey(), b.IdKey());
  }

  /** compareTo is antisymmetric and transitive. */
  lemma CompareToOrder(a: StudyUidContainer, b: StudyUidContainer, c: StudyUidContainer)
    ensures a.CompareTo(b) == -b.CompareTo(a)
    ensures a.CompareTo(b) < 0 && b.CompareTo(c) < 0 ==> a.CompareTo(c) < 0
  {
    CompareToByIds(a, b);
    CompareToByIds(b, a);
    CompareToByIds(b, c);
    CompareToByIds(a, c);
    CompareKeysAntisymmetric(a.IdKey(), b.IdKey());
    if a.CompareTo(b) < 0 && b.CompareTo(c) < 0 {
      CompareKeysTransitive(a.IdKey(), b.IdKey(), c.IdKey());
    }
  }

  /** The label comparator is the comparison of (project id, subject label,
      session label), and so zero exactly when those agree. */
  lemma CompareLabelsByLabels(a: StudyUidContainer, b: StudyUidContainer)
    ensures CompareLabels(a, b) == CompareKeys(a.LabelKey(), b.LabelKey())
    ensures CompareLabels(a, b) == 0 <==>
      a.projectId == b.projectId && a.subjectLabel == b.subjectLabel && a.sessionLabel == b.sessionLabel
  {
    CompareKeysZero(a.LabelKey(), b.LabelKey());
  }

  /** The label comparator is antisymmetric and transitive. */
  lemma CompareLabelsOrder(a: StudyUidContainer, b: StudyUidContainer, c: StudyUidContainer)
    ensures CompareLabels(a, b) == -CompareLabels(b, a)
    ensures CompareLabels(a, b) < 0 && CompareLabels(b, c) < 0 ==> CompareLabels(a, c) < 0
  {
    CompareLabelsByLabels(a, b);
    CompareLabelsByLabels(b, a);
    CompareLabelsByLabels(b, c);
    CompareLabelsByLabels(a, c);
    CompareKeysAntisymmetric(a.LabelKey(), b.LabelKey());
    if CompareLabels(a, b) < 0 && CompareLabels(b, c) < 0 {
      CompareKeysTransitive(a.LabelKey(), b.LabelKey(), c.LabelKey());
    }
  }

  /** equals is reflexive and symmetric. */
  lemma EqualsEquivalence(a: StudyUidContainer, b: StudyUidContainer)
    ensures a.Equals(a)
    ensures a.Equals(b) <==> b.Equals(a)
  {
  }
}

/** Whether stored DICOMweb entity data may be served: it must exist and carry
    the current data revision. */
module DicomwebEntityValidator {
  import opened JavaText
  import opened DwEntities

  /** isValidEntity: false for a missing entity, false for a null or empty
      revision, otherwise whether the revision matches the current one
      ignoring case. */
  function IsValidEntity(entity: DwPatient?): (r: bool)
    reads entity
    ensures entity == null ==> !r
    ensures entity != null && (entity.revision.None? || entity.revision.value == "") ==> !r
    ensures r <==> entity != null && entity.revision == Some(DataRevision)
  {
    if entity == null then false
    else if entity.revision.None? || entity.revision.value == "" then false
    else RevisionMatches(entity.revision.value)
  }

  /** The revision compared with the current one ignoring case. */
  function RevisionMatches(revision: string): (r: bool)
    ensures r <==> revision == DataRevision
  {
    CaseFreeMatch(revision);
    EqualsIgnoreCase(revision, DataRevision)
  }

  /** "1" has no case, so ignoring case it matches only itself. */
  lemma CaseFreeMatch(revision: string)
    ensures EqualsIgnoreCase(revision, DataRevision) <==> revision == DataRevision
  {
    if EqualsIgnoreCase(revision, DataRevision) {
      assert LowerChar(revision[0]) == '1';
      assert revision == [revision[0]];
    }
  }

  /** Data stored through setData is valid until its revision is changed. */
  method SetDataThenValidate(p: DwPatient, id: Option<string>, name: Option<string>,
                             birthDate: Option<string>, sex: Option<string>) returns (valid: bool)
    modifies p
    ensures valid
  {
    p.SetData(id, name, birthDate, sex);
    valid := IsValidEntity(p);
  }
}

/** Whether the stored viewer JSON metadata of a session is present and up to
    date: its revision must be an integer no lower than the current revision. */
module JsonMetadataHandler {
  import opened JavaText

  /** The current metadata revision. */
  const JsonRevision: int := 2

  /** The stored session data; only its revision matters here. */
  datatype OhifSessionData = OhifSessionData(revision: Option<string>)

  /** isJsonValid, given what the session data service returned for the
      session: false when nothing is stored, when the revision is null, empty
      or not a decimal int, or when it is below the current revision. */
  function IsJsonValid(stored: Option<OhifSessionData>): (r: bool)
    ensures stored.None? ==> !r
    ensures stored.Some? && (stored.value.revision.None? || stored.value.revision.value == "") ==> !r
    ensures r <==> (stored.Some? && stored.value.revision.Some? &&
      ParseInt(stored.value.revision.value, 10).Some? &&
      ParseInt(stored.value.revision.value, 10).value >= JsonRevision)
  {
    if stored.None? then false
    else
      var revision := stored.value.revision;
      if revision.None? || revision.value == "" then false
      else
        match ParseInt(revision.value, 10)
        case None => false
        case Some(rev) => rev >= JsonRevision
  }

  /** Metadata stored with revision n written in decimal (as
      Integer.toString(JsonRevision) writes it) is valid exactly when n is at
      least the current revision; in particular freshly stored metadata is
      valid. */
  lemma StoredRevisionValid(n: nat)
    requires n <= INT_MAX
    ensures IsJsonValid(Some(OhifSessionData(Some(ToRadix(n, 10))))) <==> n >= JsonRevision
    ensures IsJsonValid(Some(OhifSessionData(Some(ToRadix(JsonRevision, 10)))))
  {
    ParseRadix(n, 10);
    ParseRadix(JsonRevision, 10);
  }
}

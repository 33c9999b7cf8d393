/** The decisions the ROI collection endpoints make before storing or
    converting a collection: which collection types a session's modality
    admits, which types convert into which, what happens to a collection that
    already carries the requested label, and which alternate format is stored
    beside a new collection. */
module RoiApi {
  import opened JavaText

  const Aim: string := "AIM"
  const RtStruct: string := "RTSTRUCT"
  const Segmentation: string := "SEG"
  const Measurement: string := "MEAS"
  const Nifti: string := "NIFTI"

  /** How a request fails. UnprocessableEntity and Conflict are the plugin
      codes the source raises; NullModality is the NullPointerException a
      switch on a null modality raises, which nothing catches. */
  datatype RoiError = UnprocessableEntity | Conflict | NullModality

  /** What storeAlternateTypes does after the collection itself is stored. */
  datatype Alternate = ConvertTo(target: string) | NoAlternate

  /** A collection already stored under the requested label. */
  datatype CollectionData = CollectionData(id: string, imageSessionId: Option<string>)

  /** What a PUT goes on to do once its checks pass: store the collection
      under an existing id (None: a new one), then store the alternate. */
  datatype PutPlan = PutPlan(collectId: Option<string>, alternate: Alternate)

  /** is3D: the modalities whose images carry the image plane module and so
      lie in 3D patient space. */
  predicate Is3D(modality: string)
    ensures Is3D(modality) ==> SpatialModality(modality) && modality != "US"
  {
    modality == "MR" || modality == "CT" || modality == "PT"
  }

  /** The modalities the contour-like types need: the 3D ones and ultrasound. */
  predicate SpatialModality(modality: string)
  {
    modality in {"MR", "CT", "PT", "US"}
  }

  predicate KnownType(collectionType: string)
  {
    collectionType in {Aim, RtStruct, Segmentation, Measurement, Nifti}
  }

  /** checkType: None when the type is accepted for the session's modality. AIM
      and NIFTI are accepted whatever the modality; RTSTRUCT, SEG and MEAS only
      for MR, CT, PT and US; any other type is refused. */
  function CheckType(collectionType: string, modality: string): (r: Option<RoiError>)
    ensures r.Some? ==> r.value == UnprocessableEntity
    ensures collectionType == Aim || collectionType == Nifti ==> r.None?
    ensures collectionType == RtStruct || collectionType == Segmentation || collectionType == Measurement ==>
      (r.None? <==> SpatialModality(modality))
    ensures r.None? <==> KnownType(collectionType) && (collectionType in {RtStruct, Segmentation, Measurement} ==> SpatialModality(modality))
  {
    if collectionType == Aim then None
    else if collectionType == RtStruct || collectionType == Segmentation || collectionType == Measurement then
      if !Is3D(modality) && modality != "US" then Some(UnprocessableEntity) else None
    else if collectionType == Nifti then None
    else Some(UnprocessableEntity)
  }

  /** isConvertibleTo: whether a stored collection of one type can be turned
      into the requested type. */
  predicate IsConvertibleTo(collectType: string, requestedType: string)
    ensures IsConvertibleTo(collectType, requestedType) ==> collectType != requestedType
    ensures IsConvertibleTo(collectType, requestedType) ==> collectType in {Aim, RtStruct}
  {
    if collectType == Aim then requestedType == RtStruct
    else if collectType == RtStruct then requestedType == Aim
    else false
  }

  /** Conversion runs both ways between AIM and RTSTRUCT and nowhere else; no
      type converts to itself. */
  lemma ConvertibleExactly(a: string, b: string)
    ensures IsConvertibleTo(a, b) <==> (a == Aim && b == RtStruct) || (a == RtStruct && b == Aim)
    ensures IsConvertibleTo(a, b) <==> IsConvertibleTo(b, a)
    ensures IsConvertibleTo(a, b) ==> a != b
  {
  }

  /** checkExisting, given the collection found under the label: no collection
      leaves the PUT to create one; one in another session is a conflict; one
      in this session is replaced only when overwrite was asked. */
  function CheckExisting(sessionId: string, overwrite: bool, existing: Option<CollectionData>): (r: Result<Option<string>, RoiError>)
    ensures existing.None? <==> r == Ok(None)
    ensures r.Ok? && r.value.Some? <==>
      existing.Some? && existing.value.imageSessionId == Some(sessionId) && overwrite
    ensures r.Ok? && r.value.Some? ==> r.value.value == existing.value.id
    ensures r == Err(Conflict) <==> existing.Some? && existing.value.imageSessionId != Some(sessionId)
  {
    if existing.None? then Ok(None)
    else if existing.value.imageSessionId != Some(sessionId) then Err(Conflict)
    else if !overwrite then Err(UnprocessableEntity)
    else Ok(Some(existing.value.id))
  }

  /** storeAlternateTypes(user, collection, modality): an AIM collection gains
      an RTSTRUCT copy on a 3D session; an RTSTRUCT collection always gains an
      AIM copy; SEG, NIFTI and MEAS have no alternate; any other type is
      refused. A null modality fails the switch inside is3D. */
  function StoreAlternateTypes(collectionType: string, modality: Option<string>): (r: Result<Alternate, RoiError>)
    ensures r.Ok? && r.value.ConvertTo? ==> IsConvertibleTo(collectionType, r.value.target)
    ensures r.Err? <==> !KnownType(collectionType) || (collectionType == Aim && modality.None?)
  {
    if collectionType == Aim then
      if modality.None? then Err(NullModality)
      else if Is3D(modality.value) then Ok(ConvertTo(RtStruct))
      else Ok(NoAlternate)
    else if collectionType == RtStruct then Ok(ConvertTo(Aim))
    else if collectionType == Segmentation || collectionType == Nifti || collectionType == Measurement then Ok(NoAlternate)
    else Err(UnprocessableEntity)
  }

  /** The PUT of a collection once permissions are settled: the type checked
      against the session's modality, the label checked against an existing
      collection, the collection stored, then its alternate. */
  function PutCollection(collectionType: string, modality: string, sessionId: string, overwrite: bool,
                         existing: Option<CollectionData>): (r: Result<PutPlan, RoiError>)
    ensures r.Ok? ==> CheckType(collectionType, modality).None?
    ensures r.Ok? && r.value.collectId.Some? ==>
      existing.Some? && existing.value.id == r.value.collectId.value &&
      existing.value.imageSessionId == Some(sessionId) && overwrite
    ensures r.Ok? && r.value.collectId.None? ==> existing.None?
    // the alternate stored is the one storeAlternateTypes picks for the session's modality
    ensures r.Ok? ==>
      StoreAlternateTypes(collectionType, Some(modality)).Ok? &&
      r.value.alternate == StoreAlternateTypes(collectionType, Some(modality)).value
  {
    if CheckType(collectionType, modality).Some? then Err(CheckType(collectionType, modality).value)
    else match CheckExisting(sessionId, overwrite, existing)
      case Err(e) => Err(e)
      case Ok(collectId) =>
        match StoreAlternateTypes(collectionType, Some(modality))
        case Err(e) => Err(e)
        case Ok(alternate) => Ok(PutPlan(collectId, alternate))
  }

  /** A PUT whose type passed checkType never fails in storeAlternateTypes, and
      the alternate it stores is itself a type the session's modality admits. */
  lemma PutAlternateAccepted(collectionType: string, modality: string)
    requires CheckType(collectionType, modality).None?
    ensures StoreAlternateTypes(collectionType, Some(modality)).Ok?
    ensures StoreAlternateTypes(collectionType, Some(modality)) == Ok(ConvertTo(RtStruct)) <==>
      collectionType == Aim && Is3D(modality)
    ensures StoreAlternateTypes(collectionType, Some(modality)).value.ConvertTo? ==>
      CheckType(StoreAlternateTypes(collectionType, Some(modality)).value.target, modality).None?
  {
  }

  /** A PUT that passes its checks fails only if the label is taken: by a
      collection of another session, or of this one without overwrite. */
  lemma PutFailsOnlyOnLabel(collectionType: string, modality: string, sessionId: string, overwrite: bool,
                            existing: Option<CollectionData>)
    requires CheckType(collectionType, modality).None?
    ensures PutCollection(collectionType, modality, sessionId, overwrite, existing).Err? <==>
      existing.Some? && (existing.value.imageSessionId != Some(sessionId) || !overwrite)
  {
    PutAlternateAccepted(collectionType, modality);
  }

  // ---------------------------------------------------------------- alternate types without a modality

  /** createMissingType and regen as written: they call the two-argument
      storeAlternateTypes, which passes a null modality on. */
  function CreateMissingTypeAsWritten(collectType: string): (r: Result<Alternate, RoiError>)
    ensures r.Err? <==> !KnownType(collectType) || collectType == Aim
  {
    StoreAlternateTypes(collectType, None)
  }

  /** A GET for the RTSTRUCT form of an AIM collection whose RTSTRUCT file is
      missing gets past checkType and isConvertibleTo on a CT session, and
      then fails on the null modality instead of converting. */
  lemma MissingRtStructOfAimFails()
    ensures CheckType(RtStruct, "CT").None? && IsConvertibleTo(Aim, RtStruct)
    ensures CreateMissingTypeAsWritten(Aim) == Err(NullModality)
  {
  }

  /** createMissingType and regen given the session's modality, as the PUT
      path does. */
  function CreateMissingType(collectType: string, sessionModality: string): (r: Result<Alternate, RoiError>)
    ensures r.Err? <==> !KnownType(collectType)
  {
    StoreAlternateTypes(collectType, Some(sessionModality))
  }

  /** With the session's modality, a GET that passed checkType and
      isConvertibleTo creates exactly the requested type, except for an AIM
      collection on an ultrasound session, which has no RTSTRUCT alternate. */
  lemma MissingTypeCreated(collectType: string, requestedType: string, modality: string)
    requires CheckType(requestedType, modality).None? && IsConvertibleTo(collectType, requestedType)
    ensures collectType == RtStruct || Is3D(modality) ==> CreateMissingType(collectType, modality) == Ok(ConvertTo(requestedType))
    ensures collectType == Aim && modality == "US" ==> CreateMissingType(collectType, modality) == Ok(NoAlternate)
  {
  }
}

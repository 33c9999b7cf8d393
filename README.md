# OHIF viewer plugin for XNAT: a verified model of its core rules

This project is a Dafny model of the self-contained rules of the XNAT OHIF viewer plugin. The plugin serves DICOM studies to the OHIF web viewer through DICOMweb (QIDO-RS search, WADO-RS retrieve) and stores regions of interest (ROI collections). Its REST controllers, Hibernate persistence and DICOM file I/O are not modelled. The rules underneath them are, one Dafny module per source file:

- **Viewer launch (`viewer.js`), module `ViewerLaunch`.**
  - Whether a session's manifest has anything viewable.
  - The chain of existence-check, generation, fetch and label-lookup requests made when one session is opened, with their status-code branching.
  - The fan-out and join counters used when a whole subject is opened.
  - The viewer URL and the query string the viewer page reads back.
  - The angle of the "please wait" spinner.
- **DICOM values.**
  - `DicomUtils`: date packing, age-string (AS) validation, tag-path walking, the index of the maximum, value-representation codes and patient keys.
  - `Modality`: the modality bitmask registry.
  - `Studies` (DefaultStudy): the study's modality OR-mask invariant.
  - `SopInstances` (DefaultSopInstance): validating setters and copying getters.
- **DICOMweb requests.**
  - Wildcard and universal matching, and the SQL LIKE conversion (section C.2.2.2.4 of DICOM PS3.4).
  - Range splitting (section C.2.2.2.5 of DICOM PS3.4): `QueryBuilder`.
  - Frame-list and attribute-path parsing: `DicomwebApi`.
  - Frame-list trimming and media-type negotiation: `WadoRs`.
  - The media-type and transfer-syntax mapping: `MediaTypes`.
  - Retrieve URLs: `QidoRsModel`, `WadoOutputWriters`.
  - ZIP directory entries: `WadoOutputWriters`.
  - multipart/related framing (RFC 2387; section 8.6.1.2.1 of DICOM PS3.18): `MultipartRelated`, `HeaderFlushed`.
  - Attribute sets and tag lists: `AttributeSets`, `Qido`, `ServiceAttributes`, `ProjectionUtils`.
  - Patient study counters: `DwEntities`.
  - Revision checks: `DicomwebEntityValidator`, `JsonMetadataHandler`.
- **ROI and configuration.**
  - Colour parsing: `RoiColorApi`.
  - Preset clamping and equality: `RoiPresets`.
  - Preset de-duplication, sorting and label checks: `ViewerConfigApi`.
  - The collection-type and modality decision tables: `RoiApi`.
  - File-name sanitising: `RoiCollectionWriter`.
  - Study containers: `StudyUids`.

Shared Java library behaviour lives in `JavaText`, modelled on strings of Unicode characters with ASCII case mapping and ASCII digits (its differences from Java's UTF-16 strings are listed under "## Left out"): Integer.parseInt, String.trim, compareTo, equalsIgnoreCase and indexOf, the split variants, int wrap-around, and StringBuffer. An in-place insertion sort on int arrays lives in `IntSort`.

Modelling conventions:
- Java `null` is `None`.
- A thrown exception is the `Err` case of a `Result`, or a named outcome.
- Java `int` arithmetic is written out with 32-bit wrap-around where the source can overflow.
- Objects whose fields the source updates are classes with `modifies` clauses.
- Pure decision tables are functions.
- In viewer.js, each request handler is modelled as the step it takes when its reply arrives. The reply is a parameter.

Where the documented behaviour and the code disagree, the code is followed. For example, generateJSONOpenSubjectViewer opens the subject view only when every generation request answered 200 (`viewer.js:331-337`), not whatever the outcomes.

## Model

| member | source | states |
|---|---|---|
| AttributeSets.Lookup | src/main/java/org/nrg/xnatx/dicomweb/conf/AttributeSet.java:114-117 | getProperty's lookup: the stored value when the name is present and not null, the caller's default otherwise |
| AttributeSets.AttributeSet.constructor | src/main/java/org/nrg/xnatx/dicomweb/conf/AttributeSet.java:53-60 | a new set has number 0, no selection, is installed and holds no properties |
| AttributeSets.AttributeSet.SetNumber | src/main/java/org/nrg/xnatx/dicomweb/conf/AttributeSet.java:98 | stores the number and leaves selection and properties alone |
| AttributeSets.AttributeSet.SetSelection | src/main/java/org/nrg/xnatx/dicomweb/conf/AttributeSet.java:106-108 | keeps the caller's own array and leaves it sorted ascending as a permutation of what it held (SortSeq, see IntSort.SortSeqSpec) |
| AttributeSets.AttributeSet.SetProperty | src/main/java/org/nrg/xnatx/dicomweb/conf/AttributeSet.java:110-111 | the property map gains or replaces exactly that name, a null value included |
| AttributeSets.AttributeSet.SetProperties | src/main/java/org/nrg/xnatx/dicomweb/conf/AttributeSet.java:123-131 | the map is cleared and holds the entries before the first one without '='; the call fails exactly when such an entry exists, with a message naming it |
| AttributeSets.AttributeSet.CompareTo | src/main/java/org/nrg/xnatx/dicomweb/conf/AttributeSet.java:142-145 | the intended order: negative, zero or positive exactly as this number is below, equal to or above the other |
| AttributeSets.PropertySplit | src/main/java/org/nrg/xnatx/dicomweb/conf/AttributeSet.java:126-129 | an entry splits at its first '=': the name holds no '=' and name + "=" + value gives the entry back |
| AttributeSets.LoadedKeys | src/main/java/org/nrg/xnatx/dicomweb/conf/AttributeSet.java:123-131 | after setProperties a name is stored exactly when some stored entry names it; nothing from before survives |
| AttributeSets.LoadedValue | src/main/java/org/nrg/xnatx/dicomweb/conf/AttributeSet.java:123-131 | a stored name maps to the value of the last entry naming it: later entries overwrite earlier ones |
| AttributeSets.CompareToOverflow | src/main/java/org/nrg/xnatx/dicomweb/conf/AttributeSet.java:143 | as written, `number - other.number` orders INT_MIN above 1 |
| AttributeSets.CompareToAsWrittenInRange | src/main/java/org/nrg/xnatx/dicomweb/conf/AttributeSet.java:143 | when the difference fits in an int, the subtraction has the sign of the intended comparison |
| AttributeSets.AttributeSet.GetProperty | src/main/java/org/nrg/xnatx/dicomweb/conf/AttributeSet.java:114-117 | the stored value when the name maps to a non-null value, the caller's default when it is absent or mapped to null |
| AttributeSets.AttributeSet.CompareToAsWritten | src/main/java/org/nrg/xnatx/dicomweb/conf/AttributeSet.java:142-144 | as written: `number - other.number` in int arithmetic, an int congruent to the true difference modulo 2^32 |
| SopInstances.OrEmpty | src/main/java/org/nrg/xnatx/ohifviewer/etherj/dicom/impl/DefaultSopInstance.java:417-420 | a null string is stored as "", any other string as it is |
| SopInstances.DefaultSopInstance.constructor | src/main/java/org/nrg/xnatx/ohifviewer/etherj/dicom/impl/DefaultSopInstance.java:64-91 | a new instance holds empty strings, zero counts, instance number 1, a NaN slice location and NaN orientation, position and spacing arrays of 6, 3 and 2 values |
| SopInstances.DefaultSopInstance.GetImageOrientationPatient | src/main/java/org/nrg/xnatx/ohifviewer/etherj/dicom/impl/DefaultSopInstance.java:241-244 | a fresh copy of the six orientation values, so the caller cannot alter the instance |
| SopInstances.DefaultSopInstance.GetImagePositionPatient | src/main/java/org/nrg/xnatx/ohifviewer/etherj/dicom/impl/DefaultSopInstance.java:253-256 | a fresh copy of the three position values |
| SopInstances.DefaultSopInstance.GetPixelSpacing | src/main/java/org/nrg/xnatx/ohifviewer/etherj/dicom/impl/DefaultSopInstance.java:289-292 | a fresh copy of the two spacing values |
| SopInstances.DefaultSopInstance.SetRowCount | src/main/java/org/nrg/xnatx/ohifviewer/etherj/dicom/impl/DefaultSopInstance.java:495-502 | a negative count is refused with IllegalArgumentException and changes nothing; every other count ends normally and is stored |
| SopInstances.DefaultSopInstance.SetColumnCount | src/main/java/org/nrg/xnatx/ohifviewer/etherj/dicom/impl/DefaultSopInstance.java:423-430 | a negative count is refused with IllegalArgumentException and changes nothing; every other count ends normally and is stored |
| SopInstances.DefaultSopInstance.SetInstanceNumber | src/main/java/org/nrg/xnatx/ohifviewer/etherj/dicom/impl/DefaultSopInstance.java:467-470 | stores the instance number, and only it |
| SopInstances.DefaultSopInstance.SetNumberOfFrames | src/main/java/org/nrg/xnatx/ohifviewer/etherj/dicom/impl/DefaultSopInstance.java:479-482 | stores the frame count, and only it |
| SopInstances.DefaultSopInstance.SetSliceLocation | src/main/java/org/nrg/xnatx/ohifviewer/etherj/dicom/impl/DefaultSopInstance.java:527-530 | stores the slice location, and only it |
| SopInstances.DefaultSopInstance.SetAcquisitionTime | src/main/java/org/nrg/xnatx/ohifviewer/etherj/dicom/impl/DefaultSopInstance.java:417-420 | stores the time, null as "" |
| SopInstances.DefaultSopInstance.SetContentTime | src/main/java/org/nrg/xnatx/ohifviewer/etherj/dicom/impl/DefaultSopInstance.java:433-436 | stores the time, null as "" |
| SopInstances.DefaultSopInstance.SetFrameOfReferenceUid | src/main/java/org/nrg/xnatx/ohifviewer/etherj/dicom/impl/DefaultSopInstance.java:439-442 | stores the UID, null as "" (unlike the other UID setters it refuses nothing) |
| SopInstances.DefaultSopInstance.SetModality | src/main/java/org/nrg/xnatx/ohifviewer/etherj/dicom/impl/DefaultSopInstance.java:473-476 | stores the modality, null as "" |
| SopInstances.DefaultSopInstance.SetSeriesDate | src/main/java/org/nrg/xnatx/ohifviewer/etherj/dicom/impl/DefaultSopInstance.java:505-508 | stores the date, null as "" |
| SopInstances.DefaultSopInstance.SetSeriesTime | src/main/java/org/nrg/xnatx/ohifviewer/etherj/dicom/impl/DefaultSopInstance.java:511-514 | stores the time, null as "" |
| SopInstances.DefaultSopInstance.SetStudyDate | src/main/java/org/nrg/xnatx/ohifviewer/etherj/dicom/impl/DefaultSopInstance.java:543-546 | stores the date, null as "" |
| SopInstances.DefaultSopInstance.SetStudyTime | src/main/java/org/nrg/xnatx/ohifviewer/etherj/dicom/impl/DefaultSopInstance.java:549-552 | stores the time, null as "" |
| SopInstances.DefaultSopInstance.SetUid | src/main/java/org/nrg/xnatx/ohifviewer/etherj/dicom/impl/DefaultSopInstance.java:565-571 | refused exactly when the UID is null or empty, keeping the old one; every other UID ends normally and is stored |
| SopInstances.DefaultSopInstance.SetSeriesUid | src/main/java/org/nrg/xnatx/ohifviewer/etherj/dicom/impl/DefaultSopInstance.java:517-523 | refused exactly when the UID is null or empty, keeping the old one; every other UID ends normally and is stored |
| SopInstances.DefaultSopInstance.SetSopClassUid | src/main/java/org/nrg/xnatx/ohifviewer/etherj/dicom/impl/DefaultSopInstance.java:533-539 | refused exactly when the UID is null or empty, keeping the old one; every other UID ends normally and is stored |
| SopInstances.DefaultSopInstance.SetStudyUid | src/main/java/org/nrg/xnatx/ohifviewer/etherj/dicom/impl/DefaultSopInstance.java:555-561 | refused exactly when the UID is null or empty, keeping the old one; every other UID ends normally and is stored |
| SopInstances.DefaultSopInstance.SetPixelSpacing | src/main/java/org/nrg/xnatx/ohifviewer/etherj/dicom/impl/DefaultSopInstance.java:485-492 | refused exactly when the argument is null or not two values, changing nothing; every two values end normally and replace the stored spacing |
| SopInstances.DefaultSopInstance.SetImagePositionPatient | src/main/java/org/nrg/xnatx/ohifviewer/etherj/dicom/impl/DefaultSopInstance.java:456-464 | refused exactly when the argument is null or not three values, changing nothing; every three values end normally and replace the stored position |
| SopInstances.DefaultSopInstance.SetImageOrientationPatientAsWritten | src/main/java/org/nrg/xnatx/ohifviewer/etherj/dicom/impl/DefaultSopInstance.java:445-453 | as written: refused when not six values, and every six values end in IndexOutOfBounds because they are copied into the three-element position array, so no call ever succeeds and neither array changes |
| SopInstances.DefaultSopInstance.SetImageOrientationPatient | src/main/java/org/nrg/xnatx/ohifviewer/etherj/dicom/impl/DefaultSopInstance.java:445-453 | as intended: refused exactly when not six values; every six values end normally and replace the stored orientation, and the position is untouched |
| SopInstances.CopyOf | src/main/java/org/nrg/xnatx/ohifviewer/etherj/dicom/impl/DefaultSopInstance.java:243 | Arrays.copyOf: a fresh array with the same values |
| SopInstances.ArrayCopy | src/main/java/org/nrg/xnatx/ohifviewer/etherj/dicom/impl/DefaultSopInstance.java:452 | System.arraycopy from index 0: IndexOutOfBounds, with nothing changed, exactly when either array is shorter than the count; otherwise the first n values are replaced and the rest kept |
| Studies.OrAllBits | src/main/java/org/nrg/xnatx/ohifviewer/etherj/dicom/impl/DefaultStudy.java:199-205 | a bit of the OR of several masks is set exactly when one of the masks has it |
| Studies.MasksOf | src/main/java/org/nrg/xnatx/ohifviewer/etherj/dicom/impl/DefaultStudy.java:201-204 | one mask per listed series, each the bitmask of that series' modality |
| Studies.MaskOverSnoc | src/main/java/org/nrg/xnatx/ohifviewer/etherj/dicom/impl/DefaultStudy.java:201-204 | visiting one more series ORs in exactly that series' modality bits |
| Studies.MaskOverBits | src/main/java/org/nrg/xnatx/ohifviewer/etherj/dicom/impl/DefaultStudy.java:199-205 | a bit of the recomputed mask is set exactly when a visited series' modality owns it |
| Studies.MaskOverCovers | src/main/java/org/nrg/xnatx/ohifviewer/etherj/dicom/impl/DefaultStudy.java:199-205 | the OR over a listing of all series covers every series' modality bits |
| Studies.DefaultStudy.constructor | src/main/java/org/nrg/xnatx/ohifviewer/etherj/dicom/impl/DefaultStudy.java:61-67 | a new study holds its UID, empty strings, no series and an empty mask, and satisfies the study invariant |
| Studies.DefaultStudy.GetSeries | src/main/java/org/nrg/xnatx/ohifviewer/etherj/dicom/impl/DefaultStudy.java:155-158 | a series is returned exactly when one is filed under that UID |
| Studies.DefaultStudy.AddSeries | src/main/java/org/nrg/xnatx/ohifviewer/etherj/dicom/impl/DefaultStudy.java:97-103 | the series is filed under its UID, replacing and returning any earlier one; its modality bits join the mask, which never loses a bit here; the invariant "every series' bits are in the mask" is kept |
| Studies.DefaultStudy.RemoveSeries | src/main/java/org/nrg/xnatx/ohifviewer/etherj/dicom/impl/DefaultStudy.java:195-207 | the series leaves the map and is returned; the mask becomes the OR over the remaining series; the invariant is kept |
| Studies.DefaultStudy.GetModality | src/main/java/org/nrg/xnatx/ohifviewer/etherj/dicom/impl/DefaultStudy.java:148-152 | the comma-joined names of the modalities whose bits are in the mask, as allStrings gives them |
| Studies.RemovedMaskExact | src/main/java/org/nrg/xnatx/ohifviewer/etherj/dicom/impl/DefaultStudy.java:195-207 | after removeSeries a bit is set exactly when a remaining series' modality owns it, whatever order the map is visited in |
| Studies.DefaultStudy.HasSeries | src/main/java/org/nrg/xnatx/ohifviewer/etherj/dicom/impl/DefaultStudy.java:189-192 | a study holding a series under some UID holds at least one series |
| Studies.DefaultStudy.GetSeriesCount | src/main/java/org/nrg/xnatx/ohifviewer/etherj/dicom/impl/DefaultStudy.java:161-164 | zero exactly when the study holds no series |
| DicomUtils.DateToInt | src/main/java/org/nrg/xnatx/ohifviewer/etherj/dicom/DicomUtils.java:134-145 | a value that is not 8 characters long is refused; the call succeeds exactly when the year, month and day slices each parse as an int |
| DicomUtils.DateToIntDecodes | src/main/java/org/nrg/xnatx/ohifviewer/etherj/dicom/DicomUtils.java:134-145 | for an all-digit date the packed integer decodes back into the year, month and day it was made of |
| DicomUtils.DateToIntInjective | src/main/java/org/nrg/xnatx/ohifviewer/etherj/dicom/DicomUtils.java:134-145 | two all-digit dates pack to the same integer only when they are the same date string |
| DicomUtils.IsValidAgeString | src/main/java/org/nrg/xnatx/ohifviewer/etherj/dicom/DicomUtils.java:395-424 | as written: accepted exactly when the age is non-null and, after trimming, four characters whose first two parse as an int (a sign allowed) and whose last is D, W, M or Y; so "AB1Y" is refused |
| DicomUtils.ConformingAgeAccepted | src/main/java/org/nrg/xnatx/ohifviewer/etherj/dicom/DicomUtils.java:395-424 | every age of the AS value representation (three digits and a unit), with or without surrounding blanks, is accepted |
| DicomUtils.AgeStringCounterexample | src/main/java/org/nrg/xnatx/ohifviewer/etherj/dicom/DicomUtils.java:408-422 | as written, "12XY" (third character not a digit) and "-1 Y" (a sign) are accepted although neither is an AS value |
| DicomUtils.PrintableAccepted | src/main/java/org/nrg/xnatx/ohifviewer/etherj/dicom/DicomUtils.java:395-424 | a four-character age without surrounding blanks is accepted when its first two characters parse as an int and its last is a unit |
| DicomUtils.IsValidAgeStringCorrected | src/main/java/org/nrg/xnatx/ohifviewer/etherj/dicom/DicomUtils.java:395-424 | as intended: accepted exactly when, after trimming, the age is three ASCII digits and a unit |
| DicomUtils.CorrectedAgeIsStricter | src/main/java/org/nrg/xnatx/ohifviewer/etherj/dicom/DicomUtils.java:395-424 | everything the corrected check accepts the as-written check accepts too |
| DicomUtils.Descend | src/main/java/org/nrg/xnatx/ohifviewer/etherj/dicom/DicomUtils.java:184-195 | one (tag, index) step leads to an item exactly when the element is present, is a sequence and holds that index |
| DicomUtils.GetSequenceItemCount | src/main/java/org/nrg/xnatx/ohifviewer/etherj/dicom/DicomUtils.java:170-198 | as written: a null or even-length path is refused, and exactly those; otherwise the count the walk over only the first half of the (tag, index) pairs reaches, -1 when a step or the last tag is missing |
| DicomUtils.GetSequenceItemCountCorrected | src/main/java/org/nrg/xnatx/ohifviewer/etherj/dicom/DicomUtils.java:160-198 | as documented: a null or even-length path is refused, and exactly those; otherwise the item count at the end of the walk over every pair, -1 when a step or the last tag is missing |
| DicomUtils.ItemCountCounterexample | src/main/java/org/nrg/xnatx/ohifviewer/etherj/dicom/DicomUtils.java:180 | for the path [1, 0, 2] the loop as written walks no pair and answers -1, while walking every pair finds 2 items |
| DicomUtils.GetSequenceObject | src/main/java/org/nrg/xnatx/ohifviewer/etherj/dicom/DicomUtils.java:215-245 | a null or odd-length path is refused, and exactly those; otherwise the item the whole path leads to: a negative index raises, a missing element or index gives null |
| DicomUtils.Pad | src/main/java/org/nrg/xnatx/ohifviewer/etherj/dicom/DicomUtils.java:291-301 | padding keeps the existing items and appends empty items until the index exists, and no more |
| DicomUtils.CreateThenGet | src/main/java/org/nrg/xnatx/ohifviewer/etherj/dicom/DicomUtils.java:263-305 | after create mode, looking the same path up in the updated data set finds the item create mode returned |
| DicomUtils.CreateExisting | src/main/java/org/nrg/xnatx/ohifviewer/etherj/dicom/DicomUtils.java:263-305 | when the path already leads to an item, create mode changes nothing and returns that item |
| DicomUtils.GetSequenceObjectCreate | src/main/java/org/nrg/xnatx/ohifviewer/etherj/dicom/DicomUtils.java:263-305 | a null or odd-length path is refused, and only such a path; without create the data set is untouched and the item and errors are those of the plain lookup getSequenceObject(dcm, tagPath); with create the result is never null and is what the path leads to in the updated data set, and any other error is the creating walk's |
| DicomUtils.CreateFrame | src/main/java/org/nrg/xnatx/ohifviewer/etherj/dicom/DicomUtils.java:276-302 | creation keeps every element off the path's tag, adds at most that tag, and keeps every item of the walked sequence other than the one at the index |
| DicomUtils.ByteChar | src/main/java/org/nrg/xnatx/ohifviewer/etherj/dicom/DicomUtils.java:978-980 | Java's (char) of a byte: non-negative bytes keep their value, negative ones sign-extend into 0xFF80..0xFFFF |
| DicomUtils.ToByte | src/main/java/org/nrg/xnatx/ohifviewer/etherj/dicom/DicomUtils.java:978-979 | Java's (byte) narrowing: a signed byte congruent to the value modulo 256 |
| DicomUtils.VrCodeAsString | src/main/java/org/nrg/xnatx/ohifviewer/etherj/dicom/DicomUtils.java:975-981 | two characters: the high byte of the code, then the low byte, each through Java's signed byte |
| DicomUtils.VrCodeRoundTrip | src/main/java/org/nrg/xnatx/ohifviewer/etherj/dicom/DicomUtils.java:975-981 | naming a VR by its code gives back its two-letter ASCII name |
| DicomUtils.PatientKeyInjective | src/main/java/org/nrg/xnatx/ohifviewer/etherj/dicom/DicomUtils.java:432-435 | keys of patients whose names hold no '_' and whose birth dates are 8 characters are equal only for equal name, birth date and ID |
| DicomUtils.MakeInstancePatientKey | src/main/java/org/nrg/xnatx/ohifviewer/etherj/dicom/DicomUtils.java:443-459 | the key of the patient an instance names: spaces in the name become '_', a missing name is empty, a missing or empty birth date is "00000000", a missing ID is empty |
| DicomUtils.InstanceKeyDefaults | src/main/java/org/nrg/xnatx/ohifviewer/etherj/dicom/DicomUtils.java:443-459 | an instance without a birth date gets the key of one dated "" or "00000000", and the name part never holds a space |
| DicomUtils.FindIndexOfMax | src/main/java/org/nrg/xnatx/ohifviewer/etherj/dicom/DicomUtils.java:929-951 | -1 exactly for a null or empty array; otherwise an index whose magnitude is the largest and earlier than every other index of that magnitude |
| DicomUtils.MakePatientKey | src/main/java/org/nrg/xnatx/ohifviewer/etherj/dicom/DicomUtils.java:432-435 | the key starts with the name followed by '_', ends with the ID, and is as long as the three parts and two separators |
| DicomwebApi.SegmentRadix | src/main/java/org/nrg/xnatx/dicomweb/xapi/OhifDicomwebApi.java:523 | tags (even positions) are read in radix 16, item indexes (odd positions) in radix 10 |
| DicomwebApi.AttributePathOf | src/main/java/org/nrg/xnatx/dicomweb/xapi/OhifDicomwebApi.java:518-531 | an even number of '/'-separated segments is IllegalArgumentException; otherwise each value is its segment parsed in the radix of its position, an odd number of them, and a segment that does not parse is NumberFormatException |
| DicomwebApi.SegmentValuesAt | src/main/java/org/nrg/xnatx/dicomweb/xapi/OhifDicomwebApi.java:523 | segment i is parsed in the radix of position i |
| DicomwebApi.ParseAttributePath | src/main/java/org/nrg/xnatx/dicomweb/xapi/OhifDicomwebApi.java:518-531 | the constructor yields exactly the path AttributePathOf describes, including its two exceptions |
| DicomwebApi.FillPath | src/main/java/org/nrg/xnatx/dicomweb/xapi/OhifDicomwebApi.java:524-528 | the loop either fills every slot with its segment's parsed value or stops at a segment that does not parse |
| DicomwebApi.AttributePathRoundTrip | src/main/java/org/nrg/xnatx/dicomweb/xapi/OhifDicomwebApi.java:518-531 | every odd-length path of int-sized values, written as hexadecimal tags and decimal indexes joined by '/', is read back unchanged |
| DicomwebApi.SplitOfJoin | src/main/java/org/nrg/xnatx/dicomweb/xapi/OhifDicomwebApi.java:519 | splitting text joined from non-empty-first pieces free of the separator gives the pieces back |
| DicomwebApi.FormattedSegmentValues | src/main/java/org/nrg/xnatx/dicomweb/xapi/OhifDicomwebApi.java:523 | each written segment parses back, in the radix of its position, to its value |
| DicomwebApi.ParseFrames | src/main/java/org/nrg/xnatx/dicomweb/xapi/OhifDicomwebApi.java:539-543 | when reading succeeds there is one frame number per piece |
| DicomwebApi.ParseFramesSpec | src/main/java/org/nrg/xnatx/dicomweb/xapi/OhifDicomwebApi.java:539-543 | reading succeeds exactly when every piece is a decimal int above zero, each giving its value; otherwise the error is that of the first bad piece: IllegalArgumentException for a number of 0 or less, NumberFormatException for one that does not parse |
| DicomwebApi.FrameListOf | src/main/java/org/nrg/xnatx/dicomweb/xapi/OhifDicomwebApi.java:537-545 | one frame per comma-separated piece; the empty string gives no frames |
| DicomwebApi.ParseFrameList | src/main/java/org/nrg/xnatx/dicomweb/xapi/OhifDicomwebApi.java:537-545 | the constructor's loop, which stores each number before testing it, yields exactly FrameListOf |
| DicomwebApi.ParseFramesAt | src/main/java/org/nrg/xnatx/dicomweb/xapi/OhifDicomwebApi.java:540-543 | good pieces up to a bad piece i make the error that of piece i |
| DicomwebApi.FrameListRoundTrip | src/main/java/org/nrg/xnatx/dicomweb/xapi/OhifDicomwebApi.java:537-545 | a non-empty list of positive int frame numbers, written comma-separated in decimal, is read back unchanged |
| DicomwebApi.BulkdataPath | src/main/java/org/nrg/xnatx/dicomweb/xapi/OhifDicomwebApi.java:433-441 | the attribute-path text is non-empty and holds no "/bulkdata/"; a URI without "/bulkdata/" is a bad request |
| DicomwebApi.BulkdataPathAccepts | src/main/java/org/nrg/xnatx/dicomweb/xapi/OhifDicomwebApi.java:433-441 | a request URI whose part before "/bulkdata/" holds no "/bulkdata/" and does not end in "/bulkdata", followed by a non-empty path free of "/bulkdata/", yields that path (every URI with exactly one "/bulkdata/" and a path after it) |
| DicomwebApi.SeparatorFirstAt | src/main/java/org/nrg/xnatx/dicomweb/xapi/OhifDicomwebApi.java:433 | in such a URI the first "/bulkdata/" is the one after the prefix, whatever "/" the prefix holds |
| DicomwebEntityValidator.IsValidEntity | src/main/java/org/nrg/xnatx/dicomweb/toolkit/DicomwebEntityValidator.java:48-75 | false for a missing entity and for a null or empty revision; true exactly when the revision equals the current data revision |
| DicomwebEntityValidator.RevisionMatches | src/main/java/org/nrg/xnatx/dicomweb/toolkit/DicomwebEntityValidator.java:65-66 | comparing ignoring case with the current revision "1" is plain equality |
| DicomwebEntityValidator.CaseFreeMatch | src/main/java/org/nrg/xnatx/dicomweb/toolkit/DicomwebEntityValidator.java:65-66 | ignoring case, a revision matches "1" exactly when it is "1" |
| DicomwebEntityValidator.SetDataThenValidate | src/main/java/org/nrg/xnatx/dicomweb/toolkit/DicomwebEntityValidator.java:48-75 | a patient whose data was just stored with setData is valid |
| DwEntities.DwPatient.constructor | src/main/java/org/nrg/xnatx/dicomweb/entity/DwPatient.java:66-75 | a new patient has no fields set, no revision and a study count of 0 |
| DwEntities.DwPatient.DecrementNumberOfStudies | src/main/java/org/nrg/xnatx/dicomweb/entity/DwPatient.java:77-80 | the count becomes Math.max(count - 1, 0) in int arithmetic; revision and identity untouched |
| DwEntities.DwPatient.IncrementNumberOfStudies | src/main/java/org/nrg/xnatx/dicomweb/entity/DwPatient.java:175-178 | the count becomes count + 1 in int arithmetic; revision and identity untouched |
| DwEntities.DwPatient.SetNumberOfStudies | src/main/java/org/nrg/xnatx/dicomweb/entity/DwPatient.java:89-92 | stores the count |
| DwEntities.DwPatient.SetRevision | src/main/java/org/nrg/xnatx/dicomweb/entity/DwEntity.java:97-100 | stores the revision and leaves the count alone |
| DwEntities.DwPatient.SetData | src/main/java/org/nrg/xnatx/dicomweb/entity/DwPatient.java:181-195 | patient ID, name and birth date come from the attributes ("*" when absent), the sex likewise upper-cased; the data is stamped with the current revision (DwEntity.java:85) and the study count reset to 0 |
| DwEntities.DwPatient.QueryAttributes | src/main/java/org/nrg/xnatx/dicomweb/entity/DwPatient.java:144-155 | no attribute exactly when the count is 0; otherwise the one attribute NumberOfPatientRelatedStudies holding the count |
| DwEntities.DecrementedSpec | src/main/java/org/nrg/xnatx/dicomweb/entity/DwPatient.java:77-80 | from a non-negative count, a decrement never goes below zero and takes one off a positive count |
| DwEntities.IncrementThenDecrement | src/main/java/org/nrg/xnatx/dicomweb/entity/DwPatient.java:77-178 | below INT_MAX an increment adds one and a decrement undoes it |
| DwEntities.DecrementAtIntMin | src/main/java/org/nrg/xnatx/dicomweb/entity/DwPatient.java:79 | at INT_MIN, count - 1 wraps to INT_MAX, which Math.max keeps |
| DwEntities.CountsUpAndDown | src/main/java/org/nrg/xnatx/dicomweb/entity/DwPatient.java:77-178 | counting k studies in from zero gives k, and removing d of them gives k - d, or 0 once d exceeds k |
| DwEntities.RepeatDecremented | src/main/java/org/nrg/xnatx/dicomweb/entity/DwPatient.java:77-80 | d decrements from a non-negative count n give n - d, or 0 once d exceeds n |
| HeaderFlushed.Ascii | src/main/java/org/nrg/xnatx/dicomweb/resteasy/HeaderFlushedOutputStream.java:87-89 | String.getBytes(US_ASCII): one byte per character |
| HeaderFlushed.AsciiConcat | src/main/java/org/nrg/xnatx/dicomweb/resteasy/HeaderFlushedOutputStream.java:87-89 | encoding a concatenation is concatenating the encodings |
| HeaderFlushed.EntryLinesSnoc | src/main/java/org/nrg/xnatx/dicomweb/resteasy/HeaderFlushedOutputStream.java:84-91 | each further value of a header adds exactly its line |
| HeaderFlushed.LinesSnoc | src/main/java/org/nrg/xnatx/dicomweb/resteasy/HeaderFlushedOutputStream.java:82-92 | each further header adds exactly its lines |
| HeaderFlushed.LineWritten | src/main/java/org/nrg/xnatx/dicomweb/resteasy/HeaderFlushedOutputStream.java:87-90 | the four writes of one value put "key: value" and CRLF on the stream |
| HeaderFlushed.OutputSink.constructor | src/main/java/org/nrg/xnatx/dicomweb/resteasy/HeaderFlushedOutputStream.java:51 | a delegate stream starts with nothing written |
| HeaderFlushed.OutputSink.Write | src/main/java/org/nrg/xnatx/dicomweb/resteasy/HeaderFlushedOutputStream.java:100-114 | a write appends the bytes to what the delegate holds |
| HeaderFlushed.HeaderFlushedOutputStream.constructor | src/main/java/org/nrg/xnatx/dicomweb/resteasy/HeaderFlushedOutputStream.java:54-59 | the stream keeps the headers and the delegate, has not flushed the headers, and has added nothing to the delegate |
| HeaderFlushed.HeaderFlushedOutputStream.FlushHeaders | src/main/java/org/nrg/xnatx/dicomweb/resteasy/HeaderFlushedOutputStream.java:73-94 | the first call writes the header block (one line per header value, then an empty line); later calls write nothing; the delegate always holds its earlier bytes, the header block and the body in that order |
| HeaderFlushed.HeaderFlushedOutputStream.Write | src/main/java/org/nrg/xnatx/dicomweb/resteasy/HeaderFlushedOutputStream.java:110-115 | the header block if not yet written, then the bytes unchanged |
| HeaderFlushed.HeaderFlushedOutputStream.WriteRange | src/main/java/org/nrg/xnatx/dicomweb/resteasy/HeaderFlushedOutputStream.java:96-101 | the header block if not yet written, then the len bytes from off |
| HeaderFlushed.HeaderFlushedOutputStream.WriteByte | src/main/java/org/nrg/xnatx/dicomweb/resteasy/HeaderFlushedOutputStream.java:103-108 | the header block if not yet written, then the low eight bits of the value |
| HeaderFlushed.WriteLines | src/main/java/org/nrg/xnatx/dicomweb/resteasy/HeaderFlushedOutputStream.java:82-92 | the outer loop writes the lines of each header in turn |
| HeaderFlushed.WriteEntryLines | src/main/java/org/nrg/xnatx/dicomweb/resteasy/HeaderFlushedOutputStream.java:84-91 | the inner loop writes one line per value of a header |
| HeaderFlushed.WriteLine | src/main/java/org/nrg/xnatx/dicomweb/resteasy/HeaderFlushedOutputStream.java:86-90 | one header line: name, ": ", value and CRLF |
| HeaderFlushed.LowByte | src/main/java/org/nrg/xnatx/dicomweb/resteasy/HeaderFlushedOutputStream.java:107 | the byte OutputStream.write(int) keeps: congruent to the value modulo 256 |
| HeaderFlushed.WriteChunks | src/main/java/org/nrg/xnatx/dicomweb/resteasy/HeaderFlushedOutputStream.java:96-115 | writing chunk after chunk through a fresh stream puts nothing on the delegate for no chunk, otherwise the header block once and then the chunks in order |
| HeaderFlushed.HeaderBlockEnds | src/main/java/org/nrg/xnatx/dicomweb/resteasy/HeaderFlushedOutputStream.java:82-93 | the header block is CRLF alone when no header has a value, and otherwise ends in CRLF CRLF |
| HeaderFlushed.LinesEnd | src/main/java/org/nrg/xnatx/dicomweb/resteasy/HeaderFlushedOutputStream.java:82-92 | header lines, when there are any, end with CRLF |
| HeaderFlushed.EntryLinesLength | src/main/java/org/nrg/xnatx/dicomweb/resteasy/HeaderFlushedOutputStream.java:84-91 | one line per value, each at least four bytes long; no values, no lines |
| HeaderFlushed.FramedSnoc | src/main/java/org/nrg/xnatx/dicomweb/resteasy/HeaderFlushedOutputStream.java:96-115 | the body bytes pass through in the order written: chunks then one more chunk come out after the header block as their concatenation |
| IntSort.SortSeqSpec | src/main/java/org/nrg/xnatx/dicomweb/conf/AttributeSet.java:107 | the sorted list Arrays.sort leaves is ascending and holds exactly the elements it was given |
| IntSort.SortedPermutationUnique | src/main/java/org/nrg/xnatx/dicomweb/conf/AttributeSet.java:107 | two ascending lists with the same elements are the same list, so the sorted result is determined by the elements alone |
| IntSort.Sort | src/main/java/org/nrg/xnatx/dicomweb/conf/AttributeSet.java:107 | the in-place sort leaves the array holding its old elements in ascending order |
| IntSort.InsertInto | src/main/java/org/nrg/xnatx/dicomweb/conf/AttributeSet.java:107 | one step of the in-place sort: the next element moves down into the sorted prefix, the rest of the array untouched |
| IntSort.ConcatLength | src/main/java/org/nrg/xnatx/dicomweb/conf/QIDO.java:107-121 | the concatenation of the lists is as long as their lengths added up |
| JsonMetadataHandler.IsJsonValid | src/main/java/org/nrg/xnatx/ohifviewer/inputcreator/JsonMetadataHandler.java:193-231 | false when nothing is stored or the revision is null or empty; true exactly when the stored revision parses as a decimal int at least the current revision 2 |
| JsonMetadataHandler.StoredRevisionValid | src/main/java/org/nrg/xnatx/ohifviewer/inputcreator/JsonMetadataHandler.java:193-231 | metadata stored with revision n written in decimal is valid exactly when n is at least 2; freshly stored metadata is valid |
| MediaTypes.LookupFrom | src/main/java/org/nrg/xnatx/dicomweb/toolkit/MediaTypes.java:381-418 | the switch over the UID from case k on: a match names a syntax with that UID; no match means no later case has it |
| MediaTypes.Lookup | src/main/java/org/nrg/xnatx/dicomweb/toolkit/MediaTypes.java:381-418 | a UID matches a case exactly when some known transfer syntax has that UID |
| MediaTypes.Enumerated | src/main/java/org/nrg/xnatx/dicomweb/toolkit/MediaTypes.java:381-418 | every transfer syntax the switch names is among its cases |
| MediaTypes.ForTransferSyntax | src/main/java/org/nrg/xnatx/dicomweb/toolkit/MediaTypes.java:379-421 | defined (not IllegalArgumentException) exactly for the UIDs of the switch; the type and subtype are those of the syntax; the uncompressed and default lossless syntaxes carry no parameter, every other one carries transfer-syntax = the UID |
| MediaTypes.TransferSyntaxOf | src/main/java/org/nrg/xnatx/dicomweb/toolkit/MediaTypes.java:423-456 | the transfer-syntax parameter when there is one; Explicit VR Little Endian when neither it nor the type and subtype name a syntax |
| MediaTypes.LiteralSyntax | src/main/java/org/nrg/xnatx/dicomweb/toolkit/MediaTypes.java:428-454 | for lower-case types, image subtypes not listed fall through to the video cases and any other type names no syntax |
| MediaTypes.OctetStreamSyntax | src/main/java/org/nrg/xnatx/dicomweb/toolkit/MediaTypes.java:428-455 | application/octet-stream names no syntax |
| MediaTypes.ImageTypeSyntax | src/main/java/org/nrg/xnatx/dicomweb/toolkit/MediaTypes.java:431-445 | a listed lower-case image subtype names its lossless syntax |
| MediaTypes.BaseTypeSyntax | src/main/java/org/nrg/xnatx/dicomweb/toolkit/MediaTypes.java:379-456 | the bare media type of a default lossless syntax names that syntax again; that of an uncompressed one names none |
| MediaTypes.TransferSyntaxRoundTrip | src/main/java/org/nrg/xnatx/dicomweb/toolkit/MediaTypes.java:379-456 | transferSyntaxOf(forTransferSyntax(ts)) == ts for every known UID except Implicit VR Little Endian, which comes back as Explicit VR Little Endian because both share application/octet-stream |
| MediaTypes.ImageFallsThroughToVideo | src/main/java/org/nrg/xnatx/dicomweb/toolkit/MediaTypes.java:431-454 | the image case has no break: an image subtype no image case lists is looked up among the video subtypes |
| MediaTypes.ImageMpegIsVideo | src/main/java/org/nrg/xnatx/dicomweb/toolkit/MediaTypes.java:431-449 | so image/mpeg is read as MPEG-2 Main Profile video |
| MediaTypes.EqualsIgnoreCaseLower | src/main/java/org/nrg/xnatx/dicomweb/toolkit/MediaTypes.java:483-484 | equalsIgnoreCase is equality of the lower-cased strings |
| MediaTypes.EqualsIgnoreParametersEquivalence | src/main/java/org/nrg/xnatx/dicomweb/toolkit/MediaTypes.java:482-485 | parameters play no part, and the relation is reflexive, symmetric and transitive: type and subtype equal ignoring case |
| MediaTypes.GetTransferSyntax | src/main/java/org/nrg/xnatx/dicomweb/toolkit/MediaTypes.java:504-508 | the transfer-syntax parameter exactly when the type is application/dicom (ignoring case and parameters) and carries one; nothing for null or any other type |
| MediaTypes.SubtypeSuffix | src/main/java/org/nrg/xnatx/dicomweb/service/wado/WadoRsContext.java:120 | the structured-syntax suffix of a subtype holds no '+' |
| MediaTypes.CompatibleSymmetric | src/main/java/org/nrg/xnatx/dicomweb/service/wado/WadoRsContext.java:120 | isCompatibleWith is symmetric |
| MediaTypes.CompatibleReflexive | src/main/java/org/nrg/xnatx/dicomweb/service/wado/WadoRsContext.java:120 | every type is compatible with itself, and compatibility ignores parameters |
| MediaTypes.ApplicationDicomWithTransferSyntax | src/main/java/org/nrg/xnatx/dicomweb/toolkit/MediaTypes.java:510-512 | application/dicom with the transfer syntax as its only parameter, which getTransferSyntax and transferSyntaxOf both read back unchanged |
| MediaTypes.SopClassOf | src/main/java/org/nrg/xnatx/dicomweb/toolkit/MediaTypes.java:458-468 | a secondary capture exactly for an image type and a video photographic image exactly for a video type, in any capitalisation |
| MediaTypes.SopClassOfLowered | src/main/java/org/nrg/xnatx/dicomweb/toolkit/MediaTypes.java:458-480 | the SOP class depends only on the lower-cased type and subtype: PDF, CDA (application/xml), the three STL types, OBJ and MTL each map to their own encapsulated class, any other non-image, non-video type to null |
| MediaTypes.IsStlLowered | src/main/java/org/nrg/xnatx/dicomweb/toolkit/MediaTypes.java:470-474 | isSTLType holds exactly for model/stl, model/x.stl-binary and application/sla, ignoring case and parameters |
| MediaTypes.EqualsPlain | src/main/java/org/nrg/xnatx/dicomweb/toolkit/MediaTypes.java:482-485 | equalsIgnoreParameters against a lower-case constant compares the lower-cased type and subtype with it |
| MediaTypes.SopClassOfIgnoresParameters | src/main/java/org/nrg/xnatx/dicomweb/toolkit/MediaTypes.java:458-468 | the SOP class does not depend on the media type's parameters |
| MediaTypes.IsCompatibleWith | src/main/java/org/nrg/xnatx/dicomweb/service/wado/WadoRsContext.java:120 | a wildcard type is compatible with every type; two concrete types are compatible only when equal; equal type and subtype are compatible whatever the parameters |
| MediaTypes.EqualsIgnoreParameters | src/main/java/org/nrg/xnatx/dicomweb/toolkit/MediaTypes.java:482-485 | equal type and subtype suffice whatever the parameters, and equality ignoring case needs equal lengths |
| MediaTypes.IsStlType | src/main/java/org/nrg/xnatx/dicomweb/toolkit/MediaTypes.java:470-474 | an STL type is a model or application type, ignoring case |
| Modality.NameIndex | src/main/java/org/nrg/xnatx/ohifviewer/etherj/dicom/Modality.java:190-278 | the first table position holding a code; None exactly when the string is not one of the 47 codes |
| Modality.NameIndexFrom | src/main/java/org/nrg/xnatx/ohifviewer/etherj/dicom/Modality.java:190-278 | the lookup from position k on finds the first position holding the code, or None exactly when no position holds it |
| Modality.Bitmask | src/main/java/org/nrg/xnatx/ohifviewer/etherj/dicom/Modality.java:345-349 | 0 exactly for an unknown code; a known code's mask is a single bit |
| Modality.KeyIndex | src/main/java/org/nrg/xnatx/ohifviewer/etherj/dicom/Modality.java:232-278 | the position of a one-bit mask among the registered keys, or None when the mask is no registered key |
| Modality.KeyIndexFrom | src/main/java/org/nrg/xnatx/ohifviewer/etherj/dicom/Modality.java:232-278 | the search from position k on finds a position whose bit is the mask, or None when there is none |
| Modality.String | src/main/java/org/nrg/xnatx/ohifviewer/etherj/dicom/Modality.java:366-369 | a name exactly for a one-bit registered mask, namely the name the table registers for it; null for any other mask |
| Modality.Description | src/main/java/org/nrg/xnatx/ohifviewer/etherj/dicom/Modality.java:280-330 | a description exactly for a known code |
| Modality.StringOfBitmask | src/main/java/org/nrg/xnatx/ohifviewer/etherj/dicom/Modality.java:345-369 | naming a code's mask gives the code back, except RTIMAGE, which comes back as RTDOSE because both tables map it to RTDOSE's bit |
| Modality.BitmaskInjective | src/main/java/org/nrg/xnatx/ohifviewer/etherj/dicom/Modality.java:142-229 | two known codes share a mask only when they are equal or are RTDOSE and RTIMAGE |
| Modality.SetBits | src/main/java/org/nrg/xnatx/ohifviewer/etherj/dicom/Modality.java:380-387 | the registered keys visited that are set in the mask, at most one per key visited |
| Modality.SetBitsMembers | src/main/java/org/nrg/xnatx/ohifviewer/etherj/dicom/Modality.java:380-387 | a key is kept exactly when it was visited and its bit is set in the mask |
| Modality.NamesOf | src/main/java/org/nrg/xnatx/ohifviewer/etherj/dicom/Modality.java:384-385 | the registered name of each kept key, in order |
| Modality.TerminatedJoin | src/main/java/org/nrg/xnatx/ohifviewer/etherj/dicom/Modality.java:385-389 | a non-empty comma-terminated list is the comma-joined list plus one comma |
| Modality.TerminatedEmpty | src/main/java/org/nrg/xnatx/ohifviewer/etherj/dicom/Modality.java:389 | the comma-terminated text is empty exactly when there are no names |
| Modality.AllStrings | src/main/java/org/nrg/xnatx/ohifviewer/etherj/dicom/Modality.java:376-390 | the registered names of the keys set in the mask, visited in the key set's order, joined by commas; "" when none is set |
| Modality.TerminatedStep | src/main/java/org/nrg/xnatx/ohifviewer/etherj/dicom/Modality.java:380-387 | one round of the loop appends the key's name and a comma when its bit is set, nothing otherwise |
| Modality.TerminatedTrim | src/main/java/org/nrg/xnatx/ohifviewer/etherj/dicom/Modality.java:389 | dropping the last character of a non-empty comma-terminated list gives the comma-joined list |
| Modality.MaskedKeyName | src/main/java/org/nrg/xnatx/ohifviewer/etherj/dicom/Modality.java:382-386 | `key & bitmask` looked up in the table names the key exactly when its bit is set |
| Modality.AllStringsExact | src/main/java/org/nrg/xnatx/ohifviewer/etherj/dicom/Modality.java:376-390 | a registered bit is listed exactly when it is set in the mask, and at most once |
| Modality.SetBitsDistinct | src/main/java/org/nrg/xnatx/ohifviewer/etherj/dicom/Modality.java:380-387 | visiting distinct keys lists each at most once |
| MultipartRelated.FindKey | src/main/java/org/nrg/xnatx/dicomweb/resteasy/MultipartRelatedOutput.java:116 | the position of the header of that name, or -1 exactly when no header has it |
| MultipartRelated.AddHeaderSpec | src/main/java/org/nrg/xnatx/dicomweb/resteasy/MultipartRelatedOutput.java:60-65 | HttpHeaders.add appends the value to the key's values, adds no duplicate name and leaves other keys alone |
| MultipartRelated.SetHeaderSpec | src/main/java/org/nrg/xnatx/dicomweb/resteasy/MultipartRelatedOutput.java:116 | setContentType leaves exactly [value] under the key, leaves other keys alone, and adds a header only when the key was absent |
| MultipartRelated.FindKeySnoc | src/main/java/org/nrg/xnatx/dicomweb/resteasy/MultipartRelatedOutput.java:60-65 | a header added at the end is found there, and every other key is found where it was |
| MultipartRelated.FindKeyUpdate | src/main/java/org/nrg/xnatx/dicomweb/resteasy/MultipartRelatedOutput.java:116 | replacing the header found for a key keeps every key where it was |
| MultipartRelated.SetHeaderIdempotent | src/main/java/org/nrg/xnatx/dicomweb/resteasy/MultipartRelatedOutput.java:116 | setting a header twice to the same value is setting it once |
| MultipartRelated.MultipartRelatedOutput.constructor | src/main/java/org/nrg/xnatx/dicomweb/resteasy/MultipartRelatedOutput.java:50-52 | a new output has no parts, its boundary and no start info |
| MultipartRelated.MultipartRelatedOutput.AddPart | src/main/java/org/nrg/xnatx/dicomweb/resteasy/MultipartRelatedOutput.java:54-68 | a new last part carrying the entity and media type, with Content-Transfer-Encoding and Content-ID headers for the non-null arguments only |
| MultipartRelated.MultipartRelatedOutput.RootPart | src/main/java/org/nrg/xnatx/dicomweb/resteasy/MultipartRelatedOutput.java:70-73 | the first part; IndexOutOfBoundsException (None) exactly when there are no parts |
| MultipartRelated.MultipartRelatedOutput.WriteTo | src/main/java/org/nrg/xnatx/dicomweb/resteasy/MultipartRelatedOutput.java:91-99 | the parts in list order, then the close delimiter "--boundary--"; each part's Content-Type is set on the way and nothing else in the list changes |
| MultipartRelated.MultipartRelatedOutput.WriteClose | src/main/java/org/nrg/xnatx/dicomweb/resteasy/MultipartRelatedOutput.java:97-98 | the boundary delimiter, then "--" |
| MultipartRelated.MultipartRelatedOutput.WritePart | src/main/java/org/nrg/xnatx/dicomweb/resteasy/MultipartRelatedOutput.java:110-132 | the delimiter and CRLF, the entity written through a stream that sends the part's headers ahead of its first byte, then CRLF; the part's Content-Type header is set |
| MultipartRelated.NewHeaders | src/main/java/org/nrg/xnatx/dicomweb/resteasy/MultipartRelatedOutput.java:57-66 | a new part's headers: no Content-Type yet, Content-ID and Content-Transfer-Encoding exactly for the non-null arguments, no name twice |
| MultipartRelated.PartsBytesSnoc | src/main/java/org/nrg/xnatx/dicomweb/resteasy/MultipartRelatedOutput.java:104-107 | the loop writes one more part's bytes after those before it |
| MultipartRelated.PartsBytesConcat | src/main/java/org/nrg/xnatx/dicomweb/resteasy/MultipartRelatedOutput.java:101-108 | parts are written in list order: two lists give the bytes of the first and then the second |
| MultipartRelated.RootPartFirst | src/main/java/org/nrg/xnatx/dicomweb/resteasy/MultipartRelatedOutput.java:70-114 | the body of a non-empty list starts with the delimiter, CRLF and the root part |
| MultipartRelated.BodyEnds | src/main/java/org/nrg/xnatx/dicomweb/resteasy/MultipartRelatedOutput.java:91-99 | the body ends with "--boundary--", and with no parts is that alone |
| MultipartRelated.EmptyEntityNoHeaders | src/main/java/org/nrg/xnatx/dicomweb/resteasy/MultipartRelatedOutput.java:110-132 | a part whose entity writes nothing gets neither its headers nor the blank line after them: only the delimiter and two CRLFs |
| MultipartRelated.ContentTypeSent | src/main/java/org/nrg/xnatx/dicomweb/resteasy/MultipartRelatedOutput.java:110-132 | a part whose entity writes something sends Content-Type = its media type in its header block ahead of the entity's bytes |
| MultipartRelated.RewriteSameBytes | src/main/java/org/nrg/xnatx/dicomweb/resteasy/MultipartRelatedOutput.java:91-132 | writing the body a second time gives the same bytes, since the Content-Type set by the first write is set again to the same value |
| MultipartRelated.TypedBytes | src/main/java/org/nrg/xnatx/dicomweb/resteasy/MultipartRelatedOutput.java:113-131 | setting Content-Type on each part does not change the bytes the parts produce |
| MultipartRelated.MultipartRelatedOutput.SetStartInfo | src/main/java/org/nrg/xnatx/dicomweb/resteasy/MultipartRelatedOutput.java:80-83 | the start-info parameter is recorded and the parts and boundary are left as they were |
| ProjectionUtils.MapResultsToPaths | src/main/java/org/nrg/xnatx/dicomweb/service/query/impl/ProjectionUtils.java:84-101 | null for a null row; otherwise the map built by putting each property with its value in order |
| ProjectionUtils.PathMapKeys | src/main/java/org/nrg/xnatx/dicomweb/service/query/impl/ProjectionUtils.java:92-98 | the keys of the map are exactly the property names |
| ProjectionUtils.PathMapValue | src/main/java/org/nrg/xnatx/dicomweb/service/query/impl/ProjectionUtils.java:93-98 | a name maps to the value at its last position in the property list, or null when the row is shorter than that; later duplicates overwrite earlier ones |
| Qido.CatAndSort | src/main/java/org/nrg/xnatx/dicomweb/conf/QIDO.java:107-121 | the new array holds the lists' concatenation sorted ascending (see CatAndSortSpec) |
| Qido.ArrayCopy | src/main/java/org/nrg/xnatx/dicomweb/conf/QIDO.java:116 | System.arraycopy at the running offset: the list lands at the offset and the cells before it are kept |
| Qido.CatAndSortSpec | src/main/java/org/nrg/xnatx/dicomweb/conf/QIDO.java:107-121 | the result is as long as all lists together, ascending, and holds each tag as often as the lists do together |
| Qido.StudySeriesTags | src/main/java/org/nrg/xnatx/dicomweb/conf/QIDO.java:92-93 | STUDY_SERIES holds the STUDY and SERIES tags, ascending |
| Qido.SeriesInstanceTags | src/main/java/org/nrg/xnatx/dicomweb/conf/QIDO.java:97-98 | SERIES_INSTANCE holds the SERIES and INSTANCE tags, ascending |
| Qido.StudySeriesInstanceTags | src/main/java/org/nrg/xnatx/dicomweb/conf/QIDO.java:94-96 | STUDY_SERIES_INSTANCE holds the tags of all three levels, ascending |
| Qido.CombinedUnique | src/main/java/org/nrg/xnatx/dicomweb/conf/QIDO.java:92-119 | any ascending list with the same tags is the combined level's list, so it does not depend on how the sort is carried out |
| QidoRsModel.RetrieveUrl | src/main/java/org/nrg/xnatx/dicomweb/service/qido/QidoRsModel.java:56-119 | the StringBuffer the override chain builds: the base URL, then "/studies/" and the study UID, "/series/" and the series UID, "/instances/" and the SOP UID down to the level asked for |
| QidoRsModel.AddRetrieveUrl | src/main/java/org/nrg/xnatx/dicomweb/service/qido/QidoRsModel.java:45-102 | PATIENT leaves the match unchanged; every other level sets RetrieveURL to its URL and keeps the UIDs |
| QidoRsModel.BaseUrlOfService | src/main/java/org/nrg/xnatx/dicomweb/service/qido/QidoRsModel.java:114-119 | for a request URL under "/rs/" the base is the request up to and including the last "/rs"; what follows starts with '/' and holds no further "/rs/" |
| QidoRsModel.RetrieveUrlPrefix | src/main/java/org/nrg/xnatx/dicomweb/service/qido/QidoRsModel.java:56-83 | a deeper level's URL starts with the URL of every level above it |
| QidoRsModel.BaseUrlWithoutService | src/main/java/org/nrg/xnatx/dicomweb/service/qido/QidoRsModel.java:117 | a request URL without "/rs/" keeps only its first two characters (padded with NUL), since lastIndexOf gives -1 |
| QueryBuilder.IsUniversalPatientIds | src/main/java/org/nrg/xnatx/dicomweb/service/query/impl/QueryBuilder.java:95-105 | true exactly when every patient ID is universal (null or "*"); an empty array is universal |
| QueryBuilder.ContainsWildcard | src/main/java/org/nrg/xnatx/dicomweb/service/query/impl/QueryBuilder.java:272-275 | true exactly when a '*' or a '?' occurs |
| QueryBuilder.ToLikePattern | src/main/java/org/nrg/xnatx/dicomweb/service/query/impl/QueryBuilder.java:663-692 | the loop builds LikeFrom; reading its pattern back gives the value with each run of '*' collapsed to one |
| QueryBuilder.LikeStep | src/main/java/org/nrg/xnatx/dicomweb/service/query/impl/QueryBuilder.java:668-690 | one round of the loop appends the character's translation and goes on with it as the previous character |
| QueryBuilder.UnlikeEmit | src/main/java/org/nrg/xnatx/dicomweb/service/query/impl/QueryBuilder.java:670-688 | each character's translation reads back as that character, except a '*' after a '*', which emits nothing |
| QueryBuilder.UnlikeOfLike | src/main/java/org/nrg/xnatx/dicomweb/service/query/impl/QueryBuilder.java:663-692 | the translation loses nothing but repeated stars: '%' for a run of '*', '_' for '?', and '!' escaping '_', '%' and '!' |
| QueryBuilder.StarsCollapse | src/main/java/org/nrg/xnatx/dicomweb/service/query/impl/QueryBuilder.java:672-677 | after a '*', further stars emit nothing |
| QueryBuilder.CollapseOnlyStars | src/main/java/org/nrg/xnatx/dicomweb/service/query/impl/QueryBuilder.java:672-677 | only stars collapse to nothing after a '*' |
| QueryBuilder.PureStarPattern | src/main/java/org/nrg/xnatx/dicomweb/service/query/impl/QueryBuilder.java:663-724 | the pattern is a lone "%" exactly for a non-empty run of stars |
| QueryBuilder.SplitRange | src/main/java/org/nrg/xnatx/dicomweb/service/query/impl/QueryBuilder.java:612-632 | without '-' the value is both ends; otherwise the start is absent exactly when '-' comes first, and the end absent exactly when the first '-' is the last character |
| QueryBuilder.SplitRangeJoin | src/main/java/org/nrg/xnatx/dicomweb/service/query/impl/QueryBuilder.java:612-632 | a range value is its start, '-' and its end, and the start holds no '-' |
| QueryBuilder.WildCard | src/main/java/org/nrg/xnatx/dicomweb/service/query/impl/QueryBuilder.java:710-734 | no criterion (false) exactly for a universal value or a run of stars; otherwise LIKE for a value with wildcards and equality for any other |
| QueryBuilder.AnyOf | src/main/java/org/nrg/xnatx/dicomweb/service/query/impl/QueryBuilder.java:185-209 | nothing for universal values, and nothing whenever any of the values is universal; a single value's own criterion; for several, the OR of each value's criterion in order, or nothing at all as soon as one value adds none |
| RoiColorApi.PartValue | src/main/java/org/nrg/xnatx/ohifviewer/xapi/OhifRoiColorApi.java:212 | Integer.parseInt(part.trim()): a value, when there is one, is an int |
| RoiColorApi.PartValueIsTrimParse | src/main/java/org/nrg/xnatx/ohifviewer/xapi/OhifRoiColorApi.java:212 | reading a part is trimming it and then parsing it as a decimal int |
| RoiColorApi.PartValues | src/main/java/org/nrg/xnatx/ohifviewer/xapi/OhifRoiColorApi.java:211-216 | one value per part |
| RoiColorApi.EntryError | src/main/java/org/nrg/xnatx/ohifviewer/xapi/OhifRoiColorApi.java:204-216 | a null or empty label is refused as an empty label first; an entry is accepted exactly when it has a label and a colour of three comma-separated ints within [0, 255] |
| RoiColorApi.FirstError | src/main/java/org/nrg/xnatx/ohifviewer/xapi/OhifRoiColorApi.java:201-217 | no error exactly when every entry is accepted; otherwise the error of the first refused entry |
| RoiColorApi.ParseRoiColorList | src/main/java/org/nrg/xnatx/ohifviewer/xapi/OhifRoiColorApi.java:195-218 | succeeds exactly when every entry is accepted, returning the list unchanged; otherwise fails with the first refused entry's error |
| RoiColorApi.CheckComponents | src/main/java/org/nrg/xnatx/ohifviewer/xapi/OhifRoiColorApi.java:211-216 | the inner loop succeeds exactly when every part parses as an int within [0, 255] |
| RoiColorApi.PartValuesSnoc | src/main/java/org/nrg/xnatx/ohifviewer/xapi/OhifRoiColorApi.java:211-216 | one more part, one more value at the end |
| RoiColorApi.InRangeSnoc | src/main/java/org/nrg/xnatx/ohifviewer/xapi/OhifRoiColorApi.java:213 | one more value keeps the parts in range exactly when it parsed and lies in [0, 255] |
| RoiColorApi.PartValuesPrefix | src/main/java/org/nrg/xnatx/ohifviewer/xapi/OhifRoiColorApi.java:211-216 | the values of a prefix of the parts are a prefix of the values |
| RoiColorApi.SplitThree | src/main/java/org/nrg/xnatx/ohifviewer/xapi/OhifRoiColorApi.java:207 | three comma-free pieces, the last non-empty, joined with ',' split back into those pieces |
| RoiColorApi.WrittenColorAccepted | src/main/java/org/nrg/xnatx/ohifviewer/xapi/OhifRoiColorApi.java:204-216 | a colour written as three decimal components within [0, 255] separated by ',' is accepted, whatever the non-empty label |
| RoiColorApi.DecimalPlain | src/main/java/org/nrg/xnatx/ohifviewer/xapi/OhifRoiColorApi.java:212 | a decimal number up to 255 holds no ',' and reads back as itself |
| RoiColorApi.TrailingCommaDropped | src/main/java/org/nrg/xnatx/ohifviewer/xapi/OhifRoiColorApi.java:207 | String.split drops trailing empty strings, so "r,g,b," is read like "r,g,b" |
| RoiColorApi.LeadingCommaRefused | src/main/java/org/nrg/xnatx/ohifviewer/xapi/OhifRoiColorApi.java:207-215 | a leading comma leaves an empty first part, which is no int: the entry is refused |
| RoiPresets.Clamp | src/main/java/org/nrg/xnatx/ohifviewer/data/RoiPreset.java:118-119 | Math.min(Math.max(v, 0), 255): within [0, 255], the value itself when already in range, 0 below and 255 above |
| RoiPresets.Clamped | src/main/java/org/nrg/xnatx/ohifviewer/data/RoiPreset.java:115-120 | each component clamped |
| RoiPresets.RoiPreset.Default | src/main/java/org/nrg/xnatx/ohifviewer/data/RoiPreset.java:51-57 | the no-argument constructor: label "" and colour [0, 0, 0] |
| RoiPresets.RoiPreset.constructor | src/main/java/org/nrg/xnatx/ohifviewer/data/RoiPreset.java:59-63 | the label kept; the colour is the clamped argument when it has three components, [0, 0, 0] otherwise |
| RoiPresets.RoiPreset.ClampAndFill | src/main/java/org/nrg/xnatx/ohifviewer/data/RoiPreset.java:111-122 | three components are clamped into the preset's own array; anything else leaves the colour as it was; the components stay within [0, 255] |
| RoiPresets.RoiPreset.SetColor | src/main/java/org/nrg/xnatx/ohifviewer/data/RoiPreset.java:75-78 | as clampAndFillColorArray |
| RoiPresets.RoiPreset.SetLabel | src/main/java/org/nrg/xnatx/ohifviewer/data/RoiPreset.java:80-83 | stores the label |
| RoiPresets.RoiPreset.GetColor | src/main/java/org/nrg/xnatx/ohifviewer/data/RoiPreset.java:65-68 | a fresh copy of the colour, so the caller cannot alter the preset |
| RoiPresets.RoiPreset.Equals | src/main/java/org/nrg/xnatx/ohifviewer/data/RoiPreset.java:85-97 | equal exactly to a non-null preset with an equal label, whatever the colours |
| RoiPresets.EqualsHashConsistent | src/main/java/org/nrg/xnatx/ohifviewer/data/RoiPreset.java:85-103 | equals is reflexive and symmetric, and equal presets have equal hash codes |
| RoiPresets.ClampedIdempotent | src/main/java/org/nrg/xnatx/ohifviewer/data/RoiPreset.java:111-122 | clamping twice is clamping once |
| RoiPresets.ClampedInRange | src/main/java/org/nrg/xnatx/ohifviewer/data/RoiPreset.java:111-122 | components already within range are stored unchanged |
| RoiPresets.RoiPreset.HashCode | src/main/java/org/nrg/xnatx/ohifviewer/data/RoiPreset.java:99-102 | Objects.hash(label): an int, computed from the label alone |
| ServiceAttributes.Union | src/main/java/org/nrg/xnatx/dicomweb/conf/ServiceAttributes.java:70-84 | the new array holds the TreeSet of all the lists' tags in its ascending iteration order (see UnionSpec) |
| ServiceAttributes.AddEach | src/main/java/org/nrg/xnatx/dicomweb/conf/ServiceAttributes.java:75-76 | the inner loop adds each tag of one list to the set in turn |
| ServiceAttributes.TreeOfSnoc | src/main/java/org/nrg/xnatx/dicomweb/conf/ServiceAttributes.java:74-76 | adding one more tag is one TreeSet.add |
| ServiceAttributes.TreeAddElements | src/main/java/org/nrg/xnatx/dicomweb/conf/ServiceAttributes.java:76 | TreeSet.add adds the tag and nothing else |
| ServiceAttributes.TreeAddSpec | src/main/java/org/nrg/xnatx/dicomweb/conf/ServiceAttributes.java:76 | TreeSet.add keeps the set strictly ascending, grows it by at most one, and changes nothing for a tag already there |
| ServiceAttributes.TreeOfSpec | src/main/java/org/nrg/xnatx/dicomweb/conf/ServiceAttributes.java:73-76 | the set built from a list is strictly ascending, holds exactly the list's tags and is no longer than the list |
| ServiceAttributes.InConcat | src/main/java/org/nrg/xnatx/dicomweb/conf/ServiceAttributes.java:74-76 | a tag of the lists read in order is a tag of one of the lists |
| ServiceAttributes.UnionSpec | src/main/java/org/nrg/xnatx/dicomweb/conf/ServiceAttributes.java:70-84 | union's result is strictly ascending, holds exactly the tags found in some list, and is no longer than the lists together |
| ServiceAttributes.WadoRsSpec | src/main/java/org/nrg/xnatx/dicomweb/conf/ServiceAttributes.java:60-68 | WADO_RS lists, ascending and once each, exactly the tags that are patient, study, series or instance attributes |
| ServiceAttributes.UnionNoDuplicates | src/main/java/org/nrg/xnatx/dicomweb/conf/ServiceAttributes.java:72-81 | a tag repeated across the lists appears once in the union |
| ServiceAttributes.WadoRs | src/main/java/org/nrg/xnatx/dicomweb/conf/ServiceAttributes.java:60-68 | WADO_RS holds no more tags than the four entity lists together |
| ViewerLaunch.StudyListEmpty | src/main/resources/META-INF/resources/scripts/xnat/plugin/ohif-viewer/viewer.js:417-442 | a manifest without `studies` counts as empty; otherwise the verdict is a TypeError exactly when the scan reaches a series lacking `instances` before one with instances, and otherwise "empty" holds exactly when no non-null study has a series with a non-zero instance count |
| ViewerLaunch.RenderPairs | src/main/resources/META-INF/resources/scripts/xnat/plugin/ohif-viewer/viewer.js:354-358 | each `name=value` piece is rendered from its own pair, one piece per pair |
| ViewerLaunch.ParsePieces | src/main/resources/META-INF/resources/scripts/xnat/plugin/ohif-viewer/viewer.js:354-358 | the viewer page reads each piece back into one pair, in order |
| ViewerLaunch.ParsePairOfParam | src/main/resources/META-INF/resources/scripts/xnat/plugin/ohif-viewer/viewer.js:354-358 | a `name=value` piece whose name holds no '=' reads back as the same name and value |
| ViewerLaunch.PiecesOfJoin | src/main/resources/META-INF/resources/scripts/xnat/plugin/ohif-viewer/viewer.js:354-358 | pieces joined with a separator none of them holds split back into the same pieces |
| ViewerLaunch.QueryRoundTrip | src/main/resources/META-INF/resources/scripts/xnat/plugin/ohif-viewer/viewer.js:354-358 | a query string built from plain pairs reads back as the same pairs, in order |
| ViewerLaunch.OpenViewer | src/main/resources/META-INF/resources/scripts/xnat/plugin/ohif-viewer/viewer.js:508-521 | the path is "/VIEWER" followed by the parameters unchanged; "&parentProjectId=" is appended exactly when the parent project is truthy; a new tab also stops the spinner, otherwise the page is replaced |
| ViewerLaunch.QueryStringSnoc | src/main/resources/META-INF/resources/scripts/xnat/plugin/ohif-viewer/viewer.js:509-511 | appending `&name=value` to a query string is the query string of one pair more |
| ViewerLaunch.ViewerPathQuery | src/main/resources/META-INF/resources/scripts/xnat/plugin/ohif-viewer/viewer.js:508-521 | what follows "/VIEWER?" is the query string with the truthy parent project's pair appended |
| ViewerLaunch.ParentPathQuery | src/main/resources/META-INF/resources/scripts/xnat/plugin/ohif-viewer/viewer.js:509-511 | with a parent project, what follows "/VIEWER?" is the query string extended by the parentProjectId pair |
| ViewerLaunch.AppendParam | src/main/resources/META-INF/resources/scripts/xnat/plugin/ohif-viewer/viewer.js:494 | appending `&name=value` to "?" + a query string yields "?" + the query string of one pair more |
| ViewerLaunch.ViewerPrefix | src/main/resources/META-INF/resources/scripts/xnat/plugin/ohif-viewer/viewer.js:513 | the viewer path begins "/VIEWER?" and continues with the query string |
| ViewerLaunch.SubjectViewQuery | src/main/resources/META-INF/resources/scripts/xnat/plugin/ohif-viewer/viewer.js:354-358 | the subject view's URL carries subjectId, projectId and, when truthy, parentProjectId, and the viewer reads each back unchanged and in that order |
| ViewerLaunch.SubjectParamsQuery | src/main/resources/META-INF/resources/scripts/xnat/plugin/ohif-viewer/viewer.js:355 | openSubjectView's parameters are "?" followed by the subjectId and projectId pairs |
| ViewerLaunch.SessionParamsQuery | src/main/resources/META-INF/resources/scripts/xnat/plugin/ohif-viewer/viewer.js:481-495 | a session's parameters are "?" followed by subjectId, projectId, experimentId and, when the lookup succeeded, experimentLabel |
| ViewerLaunch.ExperimentParamsQuery | src/main/resources/META-INF/resources/scripts/xnat/plugin/ohif-viewer/viewer.js:481 | getLabelAndOpenViewer starts from "?" followed by the subjectId, projectId and experimentId pairs |
| ViewerLaunch.SessionViewQuery | src/main/resources/META-INF/resources/scripts/xnat/plugin/ohif-viewer/viewer.js:480-521 | a session's URL carries subject, project, experiment, then the label when it was fetched, then the truthy parent project, and the viewer reads all of them back unchanged |
| ViewerLaunch.AfterExistsCheck | src/main/resources/META-INF/resources/scripts/xnat/plugin/ohif-viewer/viewer.js:194-210 | the existence check goes on to validation exactly on 200, to generation exactly on 404, and stops the spinner on every other status, 403 included |
| ViewerLaunch.AfterGeneration | src/main/resources/META-INF/resources/scripts/xnat/plugin/ohif-viewer/viewer.js:449-464 | the generation request goes on to validation exactly on 200 and never asks for generation again |
| ViewerLaunch.LabelStep | src/main/resources/META-INF/resources/scripts/xnat/plugin/ohif-viewer/viewer.js:480-505 | the label lookup is the only request; the viewer opens exactly when the lookup loaded, whatever its status, and not when it failed |
| ViewerLaunch.ValidateStep | src/main/resources/META-INF/resources/scripts/xnat/plugin/ohif-viewer/viewer.js:360-414 | validation fetches the manifest first and never asks for an existence check or generation; a failed fetch or a status other than 200 stops the spinner, a 200 manifest whose scan raises ends in a scripting error, one with nothing viewable shows "No viewable scans", and a viewable one goes on to the label lookup, which opens the viewer exactly when it loads |
| ViewerLaunch.SessionLaunch | src/main/resources/META-INF/resources/scripts/xnat/plugin/ohif-viewer/viewer.js:176-216 | a failed check or a status other than 200 and 404 ends with the spinner stopped and nothing more asked; 200 fetches the manifest without generating it; 404 generates it exactly once, right after the existence request; the viewer opens only on a manifest with a viewable series whose scan raises nothing, and it does open when the check and the fetch answer 200, the manifest is viewable and scans cleanly, and the lookup loads |
| ViewerLaunch.SubjectCheck.constructor | src/main/resources/META-INF/resources/scripts/xnat/plugin/ohif-viewer/viewer.js:243-248 | a subject check starts with no request sent, nothing checked, nothing recorded and no join |
| ViewerLaunch.SubjectCheck.SendChecks | src/main/resources/META-INF/resources/scripts/xnat/plugin/ohif-viewer/viewer.js:237-290 | the listing handler sends one existence check per experiment and leaves the shared loop bindings on the last experiment; nothing joins yet |
| ViewerLaunch.SubjectCheck.Start | src/main/resources/META-INF/resources/scripts/xnat/plugin/ohif-viewer/viewer.js:237-290 | corrected entry point: every experiment is checked, and generation starts at once exactly when the subject has no experiments |
| ViewerLaunch.SubjectCheck.OnExistsLoadAsWritten | src/main/resources/META-INF/resources/scripts/xnat/plugin/ohif-viewer/viewer.js:256-268 | as written: a 404 records the experiment held by the shared loop bindings, whichever request loaded; the counter rises by one and the join fires when it reaches the list length |
| ViewerLaunch.SubjectCheck.OnExistsLoad | src/main/resources/META-INF/resources/scripts/xnat/plugin/ohif-viewer/viewer.js:256-268 | corrected: a 404 records the experiment the loaded request asked about, so the list always equals the experiments that answered 404, in arrival order; the join fires when the counter reaches the list length |
| ViewerLaunch.SubjectCheck.Arrive | src/main/resources/META-INF/resources/scripts/xnat/plugin/ohif-viewer/viewer.js:256-268 | each arrival is recorded once, raises the counter by one and joins exactly when the counter reaches the list length |
| ViewerLaunch.NeedingJsonMembers | src/main/resources/META-INF/resources/scripts/xnat/plugin/ohif-viewer/viewer.js:259-263 | an experiment is in the corrected list exactly when some arrival for it answered 404 |
| ViewerLaunch.SharedBindingCounterexample | src/main/resources/META-INF/resources/scripts/xnat/plugin/ohif-viewer/viewer.js:250-263 | two sessions with the first answering 404: as written the list names the second session, corrected it names the first |
| ViewerLaunch.EmptySubjectCounterexample | src/main/resources/META-INF/resources/scripts/xnat/plugin/ohif-viewer/viewer.js:256-268 | a subject without experiments: as written generation never starts, corrected it starts once |
| ViewerLaunch.SpacedLabels | src/main/resources/META-INF/resources/scripts/xnat/plugin/ohif-viewer/viewer.js:307-309 | the message part names every session, each label preceded by a space |
| ViewerLaunch.SubjectGeneration.constructor | src/main/resources/META-INF/resources/scripts/xnat/plugin/ohif-viewer/viewer.js:296-326 | nothing to generate opens the subject view at once and sends nothing; otherwise the message names every session, the progress dialog is shown and one request per session goes out |
| ViewerLaunch.SubjectGeneration.OnGenerateLoad | src/main/resources/META-INF/resources/scripts/xnat/plugin/ohif-viewer/viewer.js:328-346 | a 200 raises the generated count by one; the subject view opens when that count reaches the number of sessions, and otherwise the progress dialog is shown again |
| ViewerLaunch.CountOk | src/main/resources/META-INF/resources/scripts/xnat/plugin/ohif-viewer/viewer.js:331-337 | the count of 200 answers is at most the number of answers and equals it exactly when every answer is 200 |
| ViewerLaunch.GenerateAll | src/main/resources/META-INF/resources/scripts/xnat/plugin/ohif-viewer/viewer.js:296-352 | once every generation request has loaded, the subject view has opened once if all answered 200 and never otherwise |
| ViewerLaunch.PleaseWait.constructor | src/main/resources/META-INF/resources/scripts/xnat/plugin/ohif-viewer/viewer.js:3-13 | a page element starts without a spinner, timer or overlay |
| ViewerLaunch.PleaseWait.Init | src/main/resources/META-INF/resources/scripts/xnat/plugin/ohif-viewer/viewer.js:3-35 | on an element that already has a spinner nothing changes; otherwise the angle starts at 1 with the configured increment and the spinner runs and shows |
| ViewerLaunch.PleaseWait.Start | src/main/resources/META-INF/resources/scripts/xnat/plugin/ohif-viewer/viewer.js:59-93 | on an initialised element the timer runs and the spinner shows; otherwise nothing changes |
| ViewerLaunch.PleaseWait.Stop | src/main/resources/META-INF/resources/scripts/xnat/plugin/ohif-viewer/viewer.js:94-103 | on an initialised element the timer stops and the spinner hides; otherwise nothing changes |
| ViewerLaunch.PleaseWait.Draw | src/main/resources/META-INF/resources/scripts/xnat/plugin/ohif-viewer/viewer.js:104-128 | one tick advances the angle by the increment and wraps it to 1 once it passes 359; a non-negative increment keeps the angle in [1, 359] |
| ViewerLaunch.PleaseWait.Remove | src/main/resources/META-INF/resources/scripts/xnat/plugin/ohif-viewer/viewer.js:129-146 | afterwards the element carries no spinner, and a running one is stopped and hidden |
| ViewerLaunch.Spin | src/main/resources/META-INF/resources/scripts/xnat/plugin/ohif-viewer/viewer.js:59-128 | with a non-negative increment the angle stays within [1, 359] however many ticks run |
| WadoOutputWriters.DirPrefixesExact | src/main/java/org/nrg/xnatx/dicomweb/service/wado/WadoOutputWriters.java:249-263 | the directories addDirEntries walks are exactly the '/'-terminated prefixes of the entry name, shortest first |
| WadoOutputWriters.NotInMembers | src/main/java/org/nrg/xnatx/dicomweb/service/wado/WadoOutputWriters.java:256-260 | an entry is written exactly when it was not added before |
| WadoOutputWriters.NotInDistinct | src/main/java/org/nrg/xnatx/dicomweb/service/wado/WadoOutputWriters.java:256-260 | filtering out names already added keeps a list free of repetitions |
| WadoOutputWriters.DistinctAppend | src/main/java/org/nrg/xnatx/dicomweb/service/wado/WadoOutputWriters.java:256-260 | writing only names not added before keeps the written entries free of repetitions |
| WadoOutputWriters.ZipDirectories.constructor | src/main/java/org/nrg/xnatx/dicomweb/service/wado/WadoOutputWriters.java:232 | a ZIP stream starts with no directory added and none written |
| WadoOutputWriters.ZipDirectories.AddDirEntries | src/main/java/org/nrg/xnatx/dicomweb/service/wado/WadoOutputWriters.java:249-263 | every directory prefix of the name is added to the set, the ones new to it are written in order, shortest first, and every directory is written once in all |
| WadoOutputWriters.ZipDirectories.AddPrefixes | src/main/java/org/nrg/xnatx/dicomweb/service/wado/WadoOutputWriters.java:252-262 | the indexOf loop adds every directory prefix of the name and writes the new ones, shortest first |
| WadoOutputWriters.ZipDirectories.AddEntry | src/main/java/org/nrg/xnatx/dicomweb/service/wado/WadoOutputWriters.java:256-260 | Set.add records the entry; the ZIP entry is written only when it was not there before |
| WadoOutputWriters.DirStep | src/main/java/org/nrg/xnatx/dicomweb/service/wado/WadoOutputWriters.java:254-256 | each '/' found after the previous prefix ends the next directory prefix |
| WadoOutputWriters.WrittenOnce | src/main/java/org/nrg/xnatx/dicomweb/service/wado/WadoOutputWriters.java:249-263 | after the loop the written entries are still distinct and are exactly the added names |
| WadoOutputWriters.IndexOfCharFrom | src/main/java/org/nrg/xnatx/dicomweb/service/wado/WadoOutputWriters.java:254 | String.indexOf(c, from) answers -1 or a position at or after `from` that holds `c` |
| WadoOutputWriters.IndexOfCharFromFirst | src/main/java/org/nrg/xnatx/dicomweb/service/wado/WadoOutputWriters.java:254 | String.indexOf(c, from) skips no occurrence of `c` |
| WadoOutputWriters.NoSlashLeft | src/main/java/org/nrg/xnatx/dicomweb/service/wado/WadoOutputWriters.java:254 | once indexOf finds no '/', every directory prefix has been walked |
| WadoOutputWriters.NoSlashAfter | src/main/java/org/nrg/xnatx/dicomweb/service/wado/WadoOutputWriters.java:254 | text without '/' adds no directory prefix |
| WadoOutputWriters.DirPrefixesSnoc | src/main/java/org/nrg/xnatx/dicomweb/service/wado/WadoOutputWriters.java:256 | a '/' at position i adds the prefix ending at it as the last directory |
| WadoOutputWriters.MkInstanceUrl | src/main/java/org/nrg/xnatx/dicomweb/service/wado/WadoOutputWriters.java:280-291 | the buffer afterwards holds the instance URL of its old text: kept when it already names an instance, otherwise "/series/{uid}" when it names no series, then "/instances/{uid}" |
| WadoOutputWriters.LastIndexOfFinds | src/main/java/org/nrg/xnatx/dicomweb/service/wado/WadoOutputWriters.java:282 | lastIndexOf reports an occurrence at or after every occurrence of the segment |
| WadoOutputWriters.OccursAtEnd | src/main/java/org/nrg/xnatx/dicomweb/service/wado/WadoOutputWriters.java:289 | an appended segment occurs where it was appended |
| WadoOutputWriters.InstanceUrlExtends | src/main/java/org/nrg/xnatx/dicomweb/service/wado/WadoOutputWriters.java:280-291 | the URL is only extended, never rewritten; afterwards it names an instance; it is unchanged exactly when it named one already, and otherwise ends with "/instances/" and the SOP instance UID |
| WadoOutputWriters.InstancesAppended | src/main/java/org/nrg/xnatx/dicomweb/service/wado/WadoOutputWriters.java:289 | appending "/instances/{uid}" keeps the prefix and leaves a URL naming that instance |
| WadoOutputWriters.InstanceUrlAddsSeries | src/main/java/org/nrg/xnatx/dicomweb/service/wado/WadoOutputWriters.java:282-290 | the series part is added exactly when the URL named neither an instance nor a series; a URL naming a series gets only the instance part |
| WadoOutputWriters.InstanceUrlIdempotent | src/main/java/org/nrg/xnatx/dicomweb/service/wado/WadoOutputWriters.java:280-291 | completing an already completed URL changes nothing |
| WadoOutputWriters.InstanceUrl | src/main/java/org/nrg/xnatx/dicomweb/service/wado/WadoOutputWriters.java:280-291 | the URL is kept exactly when it already names an instance, and is extended otherwise |
| WadoRs.FirstMatchFrom | src/main/java/org/nrg/xnatx/dicomweb/service/wado/WadoRsContext.java:116-123 | the inner loop returns the earliest provided type compatible with the accepted one, and none exactly when no provided type is |
| WadoRs.FirstCompatibleSpec | src/main/java/org/nrg/xnatx/dicomweb/service/wado/WadoRsContext.java:113-127 | none exactly when no provided type is compatible with any accepted type; otherwise the answer of the earliest accepted type that has a compatible provided type |
| WadoRs.SelectMediaType | src/main/java/org/nrg/xnatx/dicomweb/service/wado/WadoRsContext.java:113-127 | selectMediaType returns, for the accepted types in order, the first provided type compatible with one of them, or null when there is none |
| WadoRs.KeptFrames | src/main/java/org/nrg/xnatx/dicomweb/service/wado/WadoRsContext.java:131-139 | the kept frames are never more than the requested ones |
| WadoRs.KeptConcat | src/main/java/org/nrg/xnatx/dicomweb/service/wado/WadoRsContext.java:131-139 | the frames are kept in their requested order |
| WadoRs.KeptMembers | src/main/java/org/nrg/xnatx/dicomweb/service/wado/WadoRsContext.java:135 | a frame is kept exactly when it was requested and is no greater than the instance's frame count |
| WadoRs.KeptAll | src/main/java/org/nrg/xnatx/dicomweb/service/wado/WadoRsContext.java:141-144 | nothing is dropped exactly when every requested frame exists, and then the list is unchanged |
| WadoRs.KeptIdempotent | src/main/java/org/nrg/xnatx/dicomweb/service/wado/WadoRsContext.java:131-152 | adjusting an adjusted list again changes nothing |
| WadoRs.NonDecreasingOrdered | src/main/java/org/nrg/xnatx/dicomweb/service/wado/WadoRsContext.java:278-287 | the adjacent comparisons of getSpoolDirectory order the whole list |
| WadoRs.KeptNonDecreasing | src/main/java/org/nrg/xnatx/dicomweb/service/wado/WadoRsContext.java:131-152 | cutting an ordered frame list down keeps it ordered, so it needs no spool directory either |
| WadoRs.WadoRsContext.constructor | src/main/java/org/nrg/xnatx/dicomweb/service/wado/WadoRsContext.java:97-111 | a new context holds the requested frames, is not partial content and has no spool directory |
| WadoRs.WadoRsContext.AdjustFrameList | src/main/java/org/nrg/xnatx/dicomweb/service/wado/WadoRsContext.java:131-152 | the frames beyond the instance's count are squeezed out in order; when none was dropped the same array stays; when none is left the list becomes empty without marking partial content; otherwise it becomes a fresh copy of the kept frames and the response is partial; nothing else changes |
| WadoRs.WadoRsContext.GetSpoolDirectory | src/main/java/org/nrg/xnatx/dicomweb/service/wado/WadoRsContext.java:272-288 | an existing spool directory is returned unchanged; otherwise one is made, exactly when some frame follows a greater one, and remembered |
| WadoRs.WadoRsContext.DicomOrBulkdataOrZip | src/main/java/org/nrg/xnatx/dicomweb/service/wado/WadoRsContext.java:175-194 | 406 exactly when neither a multipart/related type nor a zip is acceptable; DICOM exactly when application/dicom is compatible with an acceptable multipart/related type; ZIP only when a zip is acceptable; bulkdata only when no zip is |
| WadoRs.WadoRsContext.BulkdataOutput | src/main/java/org/nrg/xnatx/dicomweb/service/wado/WadoRsContext.java:155-165 | bulkdataFrame and bulkdataPath throw 406 exactly when no multipart/related type is acceptable and otherwise name their own output |
| WadoRs.WadoRsContext.MetadataJsonOrXml | src/main/java/org/nrg/xnatx/dicomweb/service/wado/WadoRsContext.java:365-380 | JSON metadata exactly when application/dicom+json or application/json is compatible with some acceptable type; 406 otherwise |
| WadoRs.CopyOf | src/main/java/org/nrg/xnatx/dicomweb/service/wado/WadoRsContext.java:151 | Arrays.copyOf gives a fresh array holding the first `len` frames |
| ViewerConfigApi.RoiType | src/main/java/org/nrg/xnatx/ohifviewer/xapi/OhifViewerConfigApi.java:115-119 | a null or empty type becomes "ALL"; any other type is its upper-cased form, equal to it ignoring case |
| ViewerConfigApi.GetProjectConfigMap | src/main/java/org/nrg/xnatx/ohifviewer/xapi/OhifViewerConfigApi.java:210-235 | AIM, SEG and MEAS give a map holding only that key, "ALL" gives one entry per allowable type, each holding what the configuration service stores for it; any other type is refused with 422 |
| ViewerConfigApi.GetRoiPresets | src/main/java/org/nrg/xnatx/ohifviewer/xapi/OhifViewerConfigApi.java:110-130 | the request succeeds exactly when no type or AIM, SEG, MEAS or ALL in any capitalisation is named, and is refused with 422 otherwise; the returned keys are the upper-cased type alone, or all three types for no type or ALL; each entry is the stored configuration of its key |
| ViewerConfigApi.UpperMatches | src/main/java/org/nrg/xnatx/ohifviewer/xapi/OhifViewerConfigApi.java:117-118 | the upper-cased parameter matches an upper-case type name exactly when the parameter matches it ignoring case |
| ViewerConfigApi.SetRoiPresets | src/main/java/org/nrg/xnatx/ohifviewer/xapi/OhifViewerConfigApi.java:147-171 | a type other than exactly AIM, SEG or MEAS is refused with 422 before the list is looked at; otherwise the request succeeds exactly when every label is valid, and what is stored is the de-duplicated list ordered by label |
| ViewerConfigApi.PutThenGet | src/main/java/org/nrg/xnatx/ohifviewer/xapi/OhifViewerConfigApi.java:147-171 | a type PUT accepts is also accepted by GET, which asks the configuration service for exactly that type's key |
| ViewerConfigApi.Labels | src/main/java/org/nrg/xnatx/ohifviewer/xapi/OhifViewerConfigApi.java:253 | the labels of a preset list, one per preset, in order |
| ViewerConfigApi.DedupedSpec | src/main/java/org/nrg/xnatx/ohifviewer/xapi/OhifViewerConfigApi.java:240-242 | the HashSet keeps presets with distinct labels, the same set of labels as the request, and exactly the first preset of each label |
| ViewerConfigApi.LabelsSnoc | src/main/java/org/nrg/xnatx/ohifviewer/xapi/OhifViewerConfigApi.java:240 | adding a preset adds its label at the end |
| ViewerConfigApi.DistinctSnoc | src/main/java/org/nrg/xnatx/ohifviewer/xapi/OhifViewerConfigApi.java:240 | adding a preset with a new label keeps the labels distinct |
| ViewerConfigApi.DedupedOfDistinct | src/main/java/org/nrg/xnatx/ohifviewer/xapi/OhifViewerConfigApi.java:240-242 | a list whose labels are already distinct loses nothing in the HashSet |
| ViewerConfigApi.InsertByLabelMultiset | src/main/java/org/nrg/xnatx/ohifviewer/xapi/OhifViewerConfigApi.java:245 | inserting a preset into a sorted list adds exactly that preset |
| ViewerConfigApi.InsertByLabelBelow | src/main/java/org/nrg/xnatx/ohifviewer/xapi/OhifViewerConfigApi.java:245 | inserting a preset below a bound keeps every label below it |
| ViewerConfigApi.AscendingSnoc | src/main/java/org/nrg/xnatx/ohifviewer/xapi/OhifViewerConfigApi.java:245 | appending a label above all others keeps the list ascending |
| ViewerConfigApi.AscendingBelowLast | src/main/java/org/nrg/xnatx/ohifviewer/xapi/OhifViewerConfigApi.java:245 | in an ascending list every label lies below one that is above the last |
| ViewerConfigApi.InsertByLabelAscending | src/main/java/org/nrg/xnatx/ohifviewer/xapi/OhifViewerConfigApi.java:245 | inserting a preset with a new label keeps the list strictly ascending |
| ViewerConfigApi.KeyAbsentPermutation | src/main/java/org/nrg/xnatx/ohifviewer/xapi/OhifViewerConfigApi.java:245 | a label missing from a list is missing from every rearrangement of it |
| ViewerConfigApi.SortByLabelSpec | src/main/java/org/nrg/xnatx/ohifviewer/xapi/OhifViewerConfigApi.java:245 | sorting presets with distinct labels orders them by String.compareTo and keeps exactly the same presets |
| ViewerConfigApi.AscendingUnique | src/main/java/org/nrg/xnatx/ohifviewer/xapi/OhifViewerConfigApi.java:240-245 | two ascending lists of the same presets are equal, so the stored order does not depend on the HashSet's iteration order |
| ViewerConfigApi.AscendingHeads | src/main/java/org/nrg/xnatx/ohifviewer/xapi/OhifViewerConfigApi.java:245 | two ascending lists of the same presets start with the same preset |
| ViewerConfigApi.SameLabelsValid | src/main/java/org/nrg/xnatx/ohifviewer/xapi/OhifViewerConfigApi.java:250-260 | whether every label is valid depends only on which labels occur |
| ViewerConfigApi.PermutationLabels | src/main/java/org/nrg/xnatx/ohifviewer/xapi/OhifViewerConfigApi.java:245 | a rearranged list carries the same labels |
| ViewerConfigApi.LabelOfMember | src/main/java/org/nrg/xnatx/ohifviewer/xapi/OhifViewerConfigApi.java:253 | the label of a listed preset is one of the list's labels |
| ViewerConfigApi.DistinctKeys | src/main/java/org/nrg/xnatx/ohifviewer/xapi/OhifViewerConfigApi.java:245 | present, distinct labels are distinct comparator keys |
| ViewerConfigApi.RemoveDuplicates | src/main/java/org/nrg/xnatx/ohifviewer/xapi/OhifViewerConfigApi.java:240-242 | the loop over the request list builds exactly the de-duplicated list |
| ViewerConfigApi.SortOutcome | src/main/java/org/nrg/xnatx/ohifviewer/xapi/OhifViewerConfigApi.java:245 | once no label is null, sorting orders the list strictly by label, keeps its presets, and keeps every label valid exactly when it was |
| ViewerConfigApi.CheckLabels | src/main/java/org/nrg/xnatx/ohifviewer/xapi/OhifViewerConfigApi.java:250-260 | the label loop succeeds exactly when every label is present, non-empty and at most 64 characters long |
| ViewerConfigApi.ParseRoiPresetList | src/main/java/org/nrg/xnatx/ohifviewer/xapi/OhifViewerConfigApi.java:237-275 | succeeds exactly when every label is valid, and then yields the de-duplicated presets sorted strictly by label; a null label among two or more distinct presets fails in the comparator with a NullPointerException, any other invalid label with IllegalArgument |
| ViewerConfigApi.NoneInvalid | src/main/java/org/nrg/xnatx/ohifviewer/xapi/OhifViewerConfigApi.java:245-260 | a valid list of at most one preset is already in order and de-duplicated |
| ViewerConfigApi.ParseIdempotent | src/main/java/org/nrg/xnatx/ohifviewer/xapi/OhifViewerConfigApi.java:237-275 | a list parseRoiPresetList produced is stored unchanged when parsed again |
| RoiCollectionWriter.NewWrapper | src/main/java/org/nrg/xnatx/roi/process/RoiCollectionWriterWrapper.java:54-61 | a null collection is refused; otherwise the wrapper holds the collection's name |
| RoiCollectionWriter.RemoveIllegal | src/main/java/org/nrg/xnatx/roi/process/RoiCollectionWriterWrapper.java:85 | replaceAll leaves a legal file name no longer than the original |
| RoiCollectionWriter.GetName | src/main/java/org/nrg/xnatx/roi/process/RoiCollectionWriterWrapper.java:75-87 | the name is never empty and always a legal file name; it is "ROI" exactly when the collection has no name, or its name is empty or "ROI" once the illegal characters are dropped |
| RoiCollectionWriter.RemoveIllegalAppend | src/main/java/org/nrg/xnatx/roi/process/RoiCollectionWriterWrapper.java:85 | characters are dropped one by one, so a concatenation is sanitised piece by piece |
| RoiCollectionWriter.RemoveIllegalOfLegal | src/main/java/org/nrg/xnatx/roi/process/RoiCollectionWriterWrapper.java:85 | a legal name is kept as it is |
| RoiCollectionWriter.RemoveIllegalKeeps | src/main/java/org/nrg/xnatx/roi/process/RoiCollectionWriterWrapper.java:85 | every legal character of the name is kept and nothing else is |
| RoiCollectionWriter.RemoveIllegalIdempotent | src/main/java/org/nrg/xnatx/roi/process/RoiCollectionWriterWrapper.java:85 | sanitising twice is sanitising once |
| RoiCollectionWriter.GetNameIdempotent | src/main/java/org/nrg/xnatx/roi/process/RoiCollectionWriterWrapper.java:75-87 | a name getName produced comes back unchanged |
| RoiApi.CheckType | src/main/java/org/nrg/xnatx/roi/xapi/OhifRoiApi.java:733-754 | AIM and NIFTI are accepted whatever the modality; RTSTRUCT, SEG and MEAS exactly on MR, CT, PT and US sessions; any other type is refused with 422 |
| RoiApi.ConvertibleExactly | src/main/java/org/nrg/xnatx/roi/xapi/OhifRoiApi.java:930-941 | conversion runs both ways between AIM and RTSTRUCT and nowhere else, and never from a type to itself |
| RoiApi.CheckExisting | src/main/java/org/nrg/xnatx/roi/xapi/OhifRoiApi.java:710-731 | no collection under the label lets the PUT create one; a collection of another session is a 409 conflict; one of this session is replaced, under its own id, exactly when overwrite was asked |
| RoiApi.StoreAlternateTypes | src/main/java/org/nrg/xnatx/roi/xapi/OhifRoiApi.java:1086-1116 | any alternate is a type the collection converts to; the call fails exactly for an unknown type, or for AIM when the modality is null (the switch in is3D) |
| RoiApi.PutCollection | src/main/java/org/nrg/xnatx/roi/xapi/OhifRoiApi.java:526-566 | a PUT goes ahead only when the type suits the session's modality; it reuses an id only for this session's collection with overwrite asked, and creates a new one only when the label is free; the alternate it stores is the one storeAlternateTypes picks for the session's modality (see PutAlternateAccepted) |
| RoiApi.PutAlternateAccepted | src/main/java/org/nrg/xnatx/roi/xapi/OhifRoiApi.java:554-564 | after checkType passes, storeAlternateTypes never fails; an RTSTRUCT copy is made exactly for AIM on a 3D session, and every alternate is a type the session's modality accepts |
| RoiApi.PutFailsOnlyOnLabel | src/main/java/org/nrg/xnatx/roi/xapi/OhifRoiApi.java:554-564 | once the type check passes, a PUT fails exactly when the label is taken by another session's collection, or by this session's without overwrite |
| RoiApi.CreateMissingTypeAsWritten | src/main/java/org/nrg/xnatx/roi/xapi/OhifRoiApi.java:800-820 | as written: createMissingType passes a null modality on, so it fails for an unknown type and for every AIM collection |
| RoiApi.MissingRtStructOfAimFails | src/main/java/org/nrg/xnatx/roi/xapi/OhifRoiApi.java:356-373 | a GET for the RTSTRUCT form of an AIM collection on a CT session passes checkType and isConvertibleTo and then fails on the null modality |
| RoiApi.CreateMissingType | src/main/java/org/nrg/xnatx/roi/xapi/OhifRoiApi.java:800-820 | corrected: given the session's modality, creating the missing form fails only for an unknown type |
| RoiApi.MissingTypeCreated | src/main/java/org/nrg/xnatx/roi/xapi/OhifRoiApi.java:318-373 | corrected: a GET that passed checkType and isConvertibleTo creates exactly the requested type, except an AIM collection on an ultrasound session, which has no RTSTRUCT alternate |
| RoiApi.IsConvertibleTo | src/main/java/org/nrg/xnatx/roi/xapi/OhifRoiApi.java:930-941 | only AIM and RTSTRUCT collections convert, and never to their own type |
| RoiApi.Is3D | src/main/java/org/nrg/xnatx/roi/xapi/OhifRoiApi.java:943-957 | MR, CT and PT lie in 3D space: each is a modality the contour types accept, and ultrasound is not among them |
| StudyUids.CompareKeysZero | src/main/java/org/nrg/xnatx/roi/data/StudyUidContainer.java:87-105 | comparing three strings in turn is zero exactly for equal triples |
| StudyUids.CompareKeysAntisymmetric | src/main/java/org/nrg/xnatx/roi/data/StudyUidContainer.java:87-105 | swapping the triples negates the comparison |
| StudyUids.CompareKeysTransitive | src/main/java/org/nrg/xnatx/roi/data/StudyUidContainer.java:87-105 | the comparison of triples is transitive |
| StudyUids.CheckValid | src/main/java/org/nrg/xnatx/roi/data/StudyUidContainer.java:249-256 | a null or empty value is refused with "<name> null or empty", any other is accepted |
| StudyUids.StudyUidContainer.Default | src/main/java/org/nrg/xnatx/roi/data/StudyUidContainer.java:56-57 | the no-argument container has every field empty |
| StudyUids.StudyUidContainer.constructor | src/main/java/org/nrg/xnatx/roi/data/StudyUidContainer.java:69-85 | once every value has passed checkValid the container holds the six values |
| StudyUids.StudyUidContainer.Equals | src/main/java/org/nrg/xnatx/roi/data/StudyUidContainer.java:107-129 | equal exactly to a non-null container whose six fields are all equal |
| StudyUids.StudyUidContainer.SetProjectId | src/main/java/org/nrg/xnatx/roi/data/StudyUidContainer.java:190-197 | a null or empty project id is refused and leaves the container unchanged; otherwise only the project id changes |
| StudyUids.StudyUidContainer.SetSubjectId | src/main/java/org/nrg/xnatx/roi/data/StudyUidContainer.java:221-228 | a null or empty subject id is refused and leaves the container unchanged; otherwise only the subject id changes |
| StudyUids.StudyUidContainer.SetSubjectLabel | src/main/java/org/nrg/xnatx/roi/data/StudyUidContainer.java:231-239 | a null or empty subject label is refused and leaves the container unchanged; otherwise only the subject label changes |
| StudyUids.StudyUidContainer.SetSessionId | src/main/java/org/nrg/xnatx/roi/data/StudyUidContainer.java:200-207 | a null or empty session id is refused and leaves the container unchanged; otherwise only the session id changes |
| StudyUids.StudyUidContainer.SetSessionLabel | src/main/java/org/nrg/xnatx/roi/data/StudyUidContainer.java:210-218 | a null or empty session label is refused and leaves the container unchanged; otherwise only the session label changes |
| StudyUids.StudyUidContainer.SetXsiType | src/main/java/org/nrg/xnatx/roi/data/StudyUidContainer.java:242-247 | a null or empty XSI type is refused and leaves the container unchanged; otherwise only the XSI type changes |
| StudyUids.FirstInvalid | src/main/java/org/nrg/xnatx/roi/data/StudyUidContainer.java:73-78 | the constructor's checks pass exactly when all six values are non-null and non-empty |
| StudyUids.Create | src/main/java/org/nrg/xnatx/roi/data/StudyUidContainer.java:69-85 | the six-argument constructor refuses the first null or empty argument, checked in parameter order, with its message; otherwise it yields a new container holding the six values |
| StudyUids.CompareToByIds | src/main/java/org/nrg/xnatx/roi/data/StudyUidContainer.java:87-105 | the equality shortcut never changes compareTo's answer: it compares (project id, subject id, session id) and is zero exactly when those agree, even for containers equals calls different |
| StudyUids.CompareToOrder | src/main/java/org/nrg/xnatx/roi/data/StudyUidContainer.java:87-105 | compareTo is antisymmetric and transitive |
| StudyUids.CompareLabelsByLabels | src/main/java/org/nrg/xnatx/roi/data/StudyUidContainer.java:261-282 | the label comparator compares (project id, subject label, session label) and is zero exactly when those agree |
| StudyUids.CompareLabelsOrder | src/main/java/org/nrg/xnatx/roi/data/StudyUidContainer.java:261-282 | the label comparator is antisymmetric and transitive |
| StudyUids.EqualsEquivalence | src/main/java/org/nrg/xnatx/roi/data/StudyUidContainer.java:107-129 | equals is reflexive and symmetric |
| StudyUids.StudyUidContainer.CompareTo | src/main/java/org/nrg/xnatx/roi/data/StudyUidContainer.java:87-105 | zero exactly when project id, subject id and session id agree, the equality shortcut notwithstanding |
| StudyUids.CompareLabels | src/main/java/org/nrg/xnatx/roi/data/StudyUidContainer.java:264-281 | zero exactly when project id, subject label and session label agree |
| DicomwebApi.SegmentValues | src/main/java/org/nrg/xnatx/dicomweb/xapi/OhifDicomwebApi.java:525-529 | one parse result per segment: hexadecimal at even positions, decimal at odd ones |
| DicomwebApi.FormatSegments | src/main/java/org/nrg/xnatx/dicomweb/xapi/OhifDicomwebApi.java:525-529 | the text of a path gives each value in the radix the constructor reads it back in |
| DicomwebApi.FormatFrames | src/main/java/org/nrg/xnatx/dicomweb/xapi/OhifDicomwebApi.java:537-545 | the text of a frame list gives each frame number in decimal |
| DicomUtils.TrimOfConformingAge | src/main/java/org/nrg/xnatx/ohifviewer/etherj/dicom/DicomUtils.java:401 | a conforming age string such as "045Y" is unchanged by trim |
| DicomUtils.KeyNameEnds | src/main/java/org/nrg/xnatx/ohifviewer/etherj/dicom/DicomUtils.java:432-435 | in the key of a name without '_', the first '_' ends the name |

## Left out

- REST controllers' security checks, XNAT lookups, Hibernate entities, DAOs and services: these are framework and database calls. Each controller is modelled from the point where its permission checks have passed. The configuration service's stored values are a lookup function passed in (`ViewerConfigApi.GetProjectConfigMap`).
- DICOM file and stream reading, decompression, the ZIP and multipart byte streams' underlying I/O: byte output is a `seq<byte>` sink (`HeaderFlushed.OutputSink`). IOExceptions are not modelled.
- Floating-point geometry and time conversions in DicomUtils (imageCoordToPatientCoord3D, patientCoordToImageCoord, sliceLocation, secondsToTm, tmToSeconds), bytesToDoubles, parseDate, parseTime, getVr, tagName and isImageSopClass: these are floating point, dcm4che dictionary lookups or I/O. Doubles elsewhere are `real`, with NaN only as an initial value.
- Concurrency: no thread pool, lock or volatile flag is modelled. DefaultStudy.removeSeries is modelled as running alone.
- viewer.js DOM and network work (jQuery overlay placement, XMLHttpRequest, dialogs, console logging, window navigation): requests and their replies are parameters, and navigation is a returned value. The spinner's rotate target and user-agent branches are not modelled; only its angle, timer and visibility are.
- viewer.js:476 refers to an `experimentLabel` that is not in scope in generateJSONOpenViewer. The wait dialog's text is not modelled, so neither is the ReferenceError this raises after the request has been sent.
- The subject fan-out's listing request and its failure listeners: the model starts at the listing's load handler.
- Modality: the Java `long` bitmask is modelled as the set of its one-bit positions, each below 64. OR is union and AND is intersection. The 64-bit representation itself is not modelled.
- Modality.AllStrings: the hash map's key order is a parameter, and the result is proved for every order.
- Studies.DefaultStudy: the plain getters and setters (UID, date, description and the other scalar fields), the constructor from a DICOM object, and getSeriesList's collator sort are not modelled. Only the series map and the modality mask are.
- Studies.DefaultStudy.AddSeries: never clears a modality bit, as in the source. Only removeSeries recomputes the mask.
- DwEntities: only DwPatient is modelled among the DICOMweb entities. Its remaining getters, setSubjectId, hashCode, toString and the blob filter are not modelled.
- QidoRsModel: the plain getters and setters and sopClassUid are not modelled.
- Qido and ServiceAttributes: tag constants are parameters. Their dcm4che numeric values are not part of this model.
- ProjectionUtils.fillProjectionList is not modelled: it builds Hibernate projections.
- MediaTypes: Spring's MimeType.isCompatibleWith is modelled by its wildcard and structured-suffix rules, with type and subtype compared as given. getMultiPartRelatedType is not modelled because it depends on Spring's MediaType.valueOf parser. Parameter-name case is not modelled.
- WadoRs.WadoRsContext: initAcceptableMediaTypes, transferSyntaxesOf, purgeSpoolDirectory, the output-stream fields and the remaining getters and setters are not modelled. ByteUtils.EMPTY_INTS is a fresh empty array. The temporary spool directory is a name passed in.
- MultipartRelated.MultipartRelatedOutput: the boundary, which the source draws from UUID.randomUUID, is a constructor parameter. getStartInfo is a plain read of the recorded field. HttpHeaders matches header names exactly; case-insensitive names are not modelled.
- JavaText.StringBuffer.SetLength: takes a `nat`, so the IndexOutOfBoundsException for a negative length is not modelled. Every call in the source passes a length that is not negative, except QidoRsModel.BaseUrl, whose `lastIndexOf + 3` is at least 2.
- JavaText: String.toLowerCase, toUpperCase, trim and equalsIgnoreCase are modelled on ASCII letters only. Unicode case mapping is not modelled.
- JavaText: strings are sequences of Unicode scalar values, not of UTF-16 code units as in Java. Three differences follow. First, String.length counts a supplementary character once where Java counts two units, so ViewerConfigApi.ValidLabel accepts labels of 33 to 64 supplementary characters that the source's `length() > 64` refuses. Second, compareTo compares scalar values, so "\uFFFF" sorts below a supplementary character where Java, comparing 0xFFFF with a high surrogate, sorts it above; this reaches the preset sort and StudyUids' comparators. Third, DigitValue accepts ASCII digits only, while Integer.parseInt through Character.digit also accepts other Unicode decimal digits, so PartValue, AttributePathOf, FrameListOf, IsJsonValid and DateToInt refuse such input.
- RoiColorApi: the colour list's JSON serialisation and storage are not modelled.
- RoiColorApi.ParseRoiColorList: the entries of the list are always present, so the NullPointerException a null entry raises at `roiColor.label` (OhifRoiColorApi.java:204), and a null list at the loop (line 201), are not modelled.
- QueryBuilder.IsUniversalPatientIds: takes the IDs the patient identifiers hold (an absent ID is null), so the NullPointerException for a null `pids` array (QueryBuilder.java:97) and for a null identifier, whose `pid.getID()` raises (QueryBuilder.java:99), is not modelled.
- RoiPresets.RoiPreset: the JSON mapping by Jackson and toString are not modelled.
- ViewerConfigApi: JSON parsing and serialisation, the configuration storage and the permission checks are not modelled. The list the source sorts in place is modelled as the value it leaves. The HashSet's iteration order is not modelled; `ViewerConfigApi.AscendingUnique` shows that the stored list does not depend on it.
- RoiApi: convertCollection, collection storage and the file lookups are not modelled; the outcome of each is a returned plan. A null modality in checkType, which raises in `modality.equals("US")` for RTSTRUCT, SEG and MEAS, is not modelled: the session's modality is always given.
- StudyUids.StudyUidContainer: hashCode, the getters and compareTo(null) are not modelled. The six-argument constructor's checks are modelled by `StudyUids.Create`; the Dafny constructor takes values already checked.
- SopInstances.DefaultSopInstance: only the no-argument constructor is modelled. The constructor from a DICOM object is not: there getString may store null UIDs and strings, and getDoubles may replace the orientation, position and spacing arrays with arrays of any length. So the model's invariant that those arrays hold 6, 3 and 2 values covers only instances built without a DICOM object.
- DicomUtils.GetSequenceObjectCreate: returns the updated data set with the item reached, not a live reference into the caller's object. A caller that changes the returned item afterwards changes the source's tree in place; the model does not capture that aliasing. Nor does it capture the partial update: the source puts sequences and pads items into the caller's object level by level, so a negative index at a later level throws after earlier levels were already changed, while the model returns the error and no updated data set.
- AttributeSets.AttributeSet.SetSelection and SetProperties: the NullPointerException on a null array is not modelled; both take a list that is present.
- ViewerLaunch: JSON.parse of the manifest (viewer.js:382) and of the session listing (viewer.js:494) throws on malformed text, and `sessionJSON.items[0].data_fields.label` (viewer.js:496) throws a TypeError when `items` is empty. Neither is modelled: the parsed manifest and the looked-up label are parameters.
- HeaderFlushed.HeaderFlushedOutputStream.WriteRange: requires `off + len` within the array, so the IndexOutOfBoundsException that OutputStream.write(b, off, len) throws for a bad range is not modelled.
- RoiCollectionWriter: getInputStream, delete, getNestedPath, getType and write(File) are not modelled. They are file and catalog I/O.
- DicomUtils.DateToInt: takes a date that is present, so the NullPointerException that dateToInt(null) raises on `date.length()` is not modelled.
- DicomUtils.MakePatientKey: takes strings that are present. The source's string concatenation turns a null part into the text "null"; that is not modelled, and its only caller here, `DicomUtils.MakeInstancePatientKey`, never passes null.

## Findings

| source | as written | input that shows it | evidently intended | confidence | as-written member | corrected member |
|---|---|---|---|---|---|---|
| src/main/resources/META-INF/resources/scripts/xnat/plugin/ohif-viewer/viewer.js:247-263 | the existence-check callbacks read the loop's function-scoped `var experimentId`/`experimentLabel`, so a 404 records whichever experiment the loop bound last | two experiments E1, E2; E1 answers 404, E2 answers 200: the list to generate holds E2 | record the experiment the answering request asked about | not executed | ViewerLaunch.SubjectCheck.OnExistsLoadAsWritten, ViewerLaunch.SharedBindingCounterexample | ViewerLaunch.SubjectCheck.OnExistsLoad, ViewerLaunch.NeedingJsonMembers |
| src/main/resources/META-INF/resources/scripts/xnat/plugin/ohif-viewer/viewer.js:237-290 | the join that starts generation runs only inside an existence check's load handler | a subject with no experiments: nothing happens, since no generation request is sent and no view opens | a subject without experiments goes straight on (and opens the subject view) | not executed | ViewerLaunch.EmptySubjectCounterexample | ViewerLaunch.SubjectCheck.Start |
| src/main/java/org/nrg/xnatx/ohifviewer/etherj/dicom/DicomUtils.java:180 | `for (i = 0; i < nLevels - 1; i++, i++)` bounds an element index by the number of pairs minus one, so it walks too few pairs | tag path [1, 0, 2] over an object whose sequence 1 holds an item with a two-item sequence 2: the loop walks no pair, looks for tag 2 at the top level and answers -1 | walk every (tag, index) pair before the last tag and count its items (2) | not executed | DicomUtils.GetSequenceItemCount, DicomUtils.ItemCountCounterexample | DicomUtils.GetSequenceItemCountCorrected |
| src/main/java/org/nrg/xnatx/ohifviewer/etherj/dicom/impl/DefaultSopInstance.java:452 | `System.arraycopy(orientation, 0, imagePosition, 0, 6)` copies into the three-element position array | any six-element orientation: the copy throws ArrayIndexOutOfBoundsException and nothing is stored | copy the six values into the orientation array | not executed | SopInstances.DefaultSopInstance.SetImageOrientationPatientAsWritten | SopInstances.DefaultSopInstance.SetImageOrientationPatient |
| src/main/java/org/nrg/xnatx/dicomweb/conf/AttributeSet.java:143 | `return number - other.number` overflows int | numbers INT_MIN and 1: the difference wraps to INT_MAX, so INT_MIN sorts after 1 | the sign of the true comparison (Integer.compare) | not executed | AttributeSets.AttributeSet.CompareToAsWritten, AttributeSets.CompareToOverflow | AttributeSets.AttributeSet.CompareTo |
| src/main/java/org/nrg/xnatx/roi/xapi/OhifRoiApi.java:815 | createMissingType (and regen, line 1023) call the two-argument storeAlternateTypes, which passes a null modality, and is3D(null) switches on null | GET the RTSTRUCT form of an AIM collection on a CT session whose RTSTRUCT file is missing: the switch raises NullPointerException | pass the session's modality, as the PUT path does at line 564 | not executed | RoiApi.CreateMissingTypeAsWritten, RoiApi.MissingRtStructOfAimFails | RoiApi.CreateMissingType, RoiApi.MissingTypeCreated |
| src/main/java/org/nrg/xnatx/ohifviewer/etherj/dicom/DicomUtils.java:408-422 | isValidAgeString parses only the first two characters, allowing a sign, and never looks at the third | "12XY" and "-1 Y" are accepted | the AS value representation of DICOM PS3.5 section 6.2 (table 6.2-1): three digits then D, W, M or Y | not executed | DicomUtils.IsValidAgeString, DicomUtils.AgeStringCounterexample | DicomUtils.IsValidAgeStringCorrected, DicomUtils.CorrectedAgeIsStricter |

/** A SOP instance of the DICOM toolkit: its identifying UIDs, dates, counts and
    the geometry arrays it owns, with the checks its setters make. */
module SopInstances {
  import opened JavaText

  /** A Java double: NaN marks a value not read yet. */
  datatype Float64 = NaN | Num(value: real)

  /** How a setter ends: normally, or with the exception it throws. */
  datatype Outcome = Done | IllegalArgument | IndexOutOfBounds

  function OrEmpty(s: Option<string>): (r: string)
    ensures s.None? ==> r == ""
    ensures s.Some? ==> r == s.value
  {
    if s.None? then "" else s.value
  }

  class DefaultSopInstance {
    var acqTime: string
    var colCount: int
    var contentTime: string
    var frameCount: int
    var frameOfRefUid: string
    var instanceNumber: int
    var modality: string
    var rowCount: int
    var seriesDate: string
    var seriesTime: string
    var seriesUid: string
    var sliceLoc: Float64
    var sopClassUid: string
    var studyDate: string
    var studyTime: string
    var studyUid: string
    var uid: string
    const imageOrientation: array<Float64>
    const imagePosition: array<Float64>
    const pixelSpacing: array<Float64>

    /** The instance owns three distinct arrays of 6, 3 and 2 doubles. */
    ghost predicate Valid()
      reads this
    {
      imageOrientation.Length == 6 && imagePosition.Length == 3 && pixelSpacing.Length == 2 &&
      imageOrientation != imagePosition && imageOrientation != pixelSpacing && imagePosition != pixelSpacing
    }

    /** DefaultSopInstance(file): empty strings, zero counts, instance number 1
        and NaN geometry. */
    constructor()
      ensures Valid()
      ensures acqTime == "" && contentTime == "" && frameOfRefUid == "" && modality == ""
      ensures seriesDate == "" && seriesTime == "" && seriesUid == "" && sopClassUid == ""
      ensures studyDate == "" && studyTime == "" && studyUid == "" && uid == ""
      ensures colCount == 0 && rowCount == 0 && frameCount == 0 && instanceNumber == 1
      ensures sliceLoc == NaN
      ensures imageOrientation[..] == [NaN, NaN, NaN, NaN, NaN, NaN]
      ensures imagePosition[..] == [NaN, NaN, NaN] && pixelSpacing[..] == [NaN, NaN]
      ensures fresh(imageOrientation) && fresh(imagePosition) && fresh(pixelSpacing)
    {
      acqTime, contentTime, frameOfRefUid, modality := "", "", "", "";
      seriesDate, seriesTime, seriesUid, sopClassUid := "", "", "", "";
      studyDate, studyTime, studyUid, uid := "", "", "", "";
      colCount, rowCount, frameCount, instanceNumber := 0, 0, 0, 1;
      sliceLoc := NaN;
      imageOrientation := new Float64[6](_ => NaN);
      imagePosition := new Float64[3](_ => NaN);
      pixelSpacing := new Float64[2](_ => NaN);
    }

    // ------------------------------------------------------------ getters

    /** getImageOrientationPatient: a new array holding the six values, so the
        caller's changes never reach the instance. */
    method GetImageOrientationPatient() returns (a: array<Float64>)
      requires Valid()
      ensures fresh(a) && a[..] == imageOrientation[..]
    {
      a := CopyOf(imageOrientation);
    }

    method GetImagePositionPatient() returns (a: array<Float64>)
      requires Valid()
      ensures fresh(a) && a[..] == imagePosition[..]
    {
      a := CopyOf(imagePosition);
    }

    method GetPixelSpacing() returns (a: array<Float64>)
      requires Valid()
      ensures fresh(a) && a[..] == pixelSpacing[..]
    {
      a := CopyOf(pixelSpacing);
    }

    // ------------------------------------------------------------ counts

    /** setRowCount: a negative count is refused and nothing changes; otherwise
        the count is stored. */
    method SetRowCount(rows: int) returns (r: Outcome)
      requires IsInt32(rows)
      modifies this`rowCount
      ensures rows < 0 <==> r == IllegalArgument
      ensures r == Done || r == IllegalArgument
      ensures r == Done ==> rowCount == rows
      ensures r != Done ==> rowCount == old(rowCount)
    {
      if rows < 0 {
        return IllegalArgument;
      }
      rowCount := rows;
      return Done;
    }

    /** setColumnCount: as setRowCount, for the column count. */
    method SetColumnCount(cols: int) returns (r: Outcome)
      requires IsInt32(cols)
      modifies this`colCount
      ensures cols < 0 <==> r == IllegalArgument
      ensures r == Done || r == IllegalArgument
      ensures r == Done ==> colCount == cols
      ensures r != Done ==> colCount == old(colCount)
    {
      if cols < 0 {
        return IllegalArgument;
      }
      colCount := cols;
      return Done;
    }

    method SetInstanceNumber(number: int)
      requires IsInt32(number)
      modifies this`instanceNumber
      ensures instanceNumber == number
    {
      instanceNumber := number;
    }

    method SetNumberOfFrames(frames: int)
      requires IsInt32(frames)
      modifies this`frameCount
      ensures frameCount == frames
    {
      frameCount := frames;
    }

    method SetSliceLocation(location: Float64)
      modifies this`sliceLoc
      ensures sliceLoc == location
    {
      sliceLoc := location;
    }

    // ------------------------------------------------------------ strings

    /** The plain string setters store their argument, a null one as "". */
    method SetAcquisitionTime(time: Option<string>)
      modifies this`acqTime
      ensures acqTime == OrEmpty(time)
    {
      acqTime := if time.None? then "" else time.value;
    }

    method SetContentTime(time: Option<string>)
      modifies this`contentTime
      ensures contentTime == OrEmpty(time)
    {
      contentTime := if time.None? then "" else time.value;
    }

    method SetFrameOfReferenceUid(value: Option<string>)
      modifies this`frameOfRefUid
      ensures frameOfRefUid == OrEmpty(value)
    {
      frameOfRefUid := if value.None? then "" else value.value;
    }

    method SetModality(value: Option<string>)
      modifies this`modality
      ensures modality == OrEmpty(value)
    {
      modality := if value.None? then "" else value.value;
    }

    method SetSeriesDate(date: Option<string>)
      modifies this`seriesDate
      ensures seriesDate == OrEmpty(date)
    {
      seriesDate := if date.None? then "" else date.value;
    }

    method SetSeriesTime(time: Option<string>)
      modifies this`seriesTime
      ensures seriesTime == OrEmpty(time)
    {
      seriesTime := if time.None? then "" else time.value;
    }

    method SetStudyDate(date: Option<string>)
      modifies this`studyDate
      ensures studyDate == OrEmpty(date)
    {
      studyDate := if date.None? then "" else date.value;
    }

    method SetStudyTime(time: Option<string>)
      modifies this`studyTime
      ensures studyTime == OrEmpty(time)
    {
      studyTime := if time.None? then "" else time.value;
    }

    // ------------------------------------------------------------ UIDs

    /** The UID setters refuse a null or empty UID and keep the old one. */
    method SetUid(value: Option<string>) returns (r: Outcome)
      modifies this`uid
      ensures r == IllegalArgument <==> value.None? || value.value == ""
      ensures r == Done || r == IllegalArgument
      ensures r == Done ==> uid == value.value
      ensures r != Done ==> uid == old(uid)
    {
      if value.None? || value.value == "" {
        return IllegalArgument;
      }
      uid := value.value;
      return Done;
    }

    method SetSeriesUid(value: Option<string>) returns (r: Outcome)
      modifies this`seriesUid
      ensures r == IllegalArgument <==> value.None? || value.value == ""
      ensures r == Done || r == IllegalArgument
      ensures r == Done ==> seriesUid == value.value
      ensures r != Done ==> seriesUid == old(seriesUid)
    {
      if value.None? || value.value == "" {
        return IllegalArgument;
      }
      seriesUid := value.value;
      return Done;
    }

    method SetSopClassUid(value: Option<string>) returns (r: Outcome)
      modifies this`sopClassUid
      ensures r == IllegalArgument <==> value.None? || value.value == ""
      ensures r == Done || r == IllegalArgument
      ensures r == Done ==> sopClassUid == value.value
      ensures r != Done ==> sopClassUid == old(sopClassUid)
    {
      if value.None? || value.value == "" {
        return IllegalArgument;
      }
      sopClassUid := value.value;
      return Done;
    }

    method SetStudyUid(value: Option<string>) returns (r: Outcome)
      modifies this`studyUid
      ensures r == IllegalArgument <==> value.None? || value.value == ""
      ensures r == Done || r == IllegalArgument
      ensures r == Done ==> studyUid == value.value
      ensures r != Done ==> studyUid == old(studyUid)
    {
      if value.None? || value.value == "" {
        return IllegalArgument;
      }
      studyUid := value.value;
      return Done;
    }

    // ------------------------------------------------------------ geometry

    /** setPixelSpacing: anything but two values is refused; otherwise the two
        values replace the stored spacing. */
    method SetPixelSpacing(spacing: array?<Float64>) returns (r: Outcome)
      requires Valid()
      modifies pixelSpacing
      ensures r == IllegalArgument <==> spacing == null || spacing.Length != 2
      ensures r == Done || r == IllegalArgument
      ensures r == Done ==> pixelSpacing[..] == old(spacing[..])
      ensures r != Done ==> unchanged(pixelSpacing)
    {
      if spacing == null || spacing.Length != 2 {
        return IllegalArgument;
      }
      r := ArrayCopy(spacing, pixelSpacing, 2);
    }

    /** setImagePositionPatient: anything but three values is refused; otherwise
        the three values replace the stored position. */
    method SetImagePositionPatient(position: array?<Float64>) returns (r: Outcome)
      requires Valid()
      modifies imagePosition
      ensures r == IllegalArgument <==> position == null || position.Length != 3
      ensures r == Done || r == IllegalArgument
      ensures r == Done ==> imagePosition[..] == old(position[..])
      ensures r != Done ==> unchanged(imagePosition)
    {
      if position == null || position.Length != 3 {
        return IllegalArgument;
      }
      r := ArrayCopy(position, imagePosition, 3);
    }

    /** setImageOrientationPatient as written: six values are copied into the
        three-element position array, so the copy's bounds check throws and no
        call ever stores anything. */
    method SetImageOrientationPatientAsWritten(orientation: array?<Float64>) returns (r: Outcome)
      requires Valid()
      modifies imagePosition
      ensures r == IllegalArgument <==> orientation == null || orientation.Length != 6
      ensures r == IndexOutOfBounds <==> orientation != null && orientation.Length == 6
      ensures unchanged(imagePosition) && unchanged(imageOrientation)
    {
      if orientation == null || orientation.Length != 6 {
        return IllegalArgument;
      }
      r := ArrayCopy(orientation, imagePosition, 6);
    }

    /** setImageOrientationPatient as evidently intended: the six values replace
        the stored orientation, and the getter then yields them. */
    method SetImageOrientationPatient(orientation: array?<Float64>) returns (r: Outcome)
      requires Valid()
      modifies imageOrientation
      ensures r == IllegalArgument <==> orientation == null || orientation.Length != 6
      ensures r == Done || r == IllegalArgument
      ensures r == Done ==> imageOrientation[..] == old(orientation[..])
      ensures r != Done ==> unchanged(imageOrientation)
      ensures unchanged(imagePosition)
    {
      if orientation == null || orientation.Length != 6 {
        return IllegalArgument;
      }
      r := ArrayCopy(orientation, imageOrientation, 6);
    }
  }

  /** Arrays.copyOf(a, a.length): a new array with the same values. */
  method CopyOf(a: array<Float64>) returns (b: array<Float64>)
    ensures fresh(b) && b[..] == a[..]
  {
    b := new Float64[a.Length];
    var i := 0;
    while i < a.Length
      invariant 0 <= i <= a.Length
      invariant b[..i] == a[..i]
    {
      b[i] := a[i];
      i := i + 1;
    }
  }

  /** System.arraycopy(src, 0, dest, 0, n): refused without any change when
      either array is shorter than n; otherwise the first n values of src
      replace those of dest. */
  method ArrayCopy(src: array<Float64>, dest: array<Float64>, n: nat) returns (r: Outcome)
    modifies dest
    ensures r == IndexOutOfBounds <==> n > src.Length || n > dest.Length
    ensures r == Done || r == IndexOutOfBounds
    ensures r == Done ==> dest[..n] == old(src[..n]) && dest[n..] == old(dest[n..])
    ensures r != Done ==> unchanged(dest)
  {
    if n > src.Length || n > dest.Length {
      return IndexOutOfBounds;
    }
    var buffer := src[..n];
    var i := 0;
    while i < n
      invariant 0 <= i <= n
      invariant dest[..i] == buffer[..i] && dest[n..] == old(dest[n..])
    {
      dest[i] := buffer[i];
      i := i + 1;
    }
    return Done;
  }
}

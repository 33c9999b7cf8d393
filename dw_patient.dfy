/** The DICOMweb patient entity: the patient-level attributes taken from a
    subject's DICOM data, a stored data revision, and the number of studies
    the patient has, kept up to date as studies are added and removed. */
module DwEntities {
  import opened JavaText

  /** The revision setAttributes stamps on stored entity data. */
  const DataRevision: string := "1"

  /** The tag (0020,1200) NumberOfPatientRelatedStudies. */
  const NumberOfPatientRelatedStudies: int := 0x0020_1200

  /** One integer query attribute. */
  datatype IntAttribute = IntAttribute(tag: int, value: int)

  /** Math.max(n - 1, 0) in int arithmetic. */
  function Decremented(n: int): int
  {
    var m := Wrap32(n - 1);
    if m > 0 then m else 0
  }

  /** n++ in int arithmetic. */
  function Incremented(n: int): int
  {
    Wrap32(n + 1)
  }

  /** Attributes.getString(tag, "*"): the value, or "*" when absent. */
  function OrStar(v: Option<string>): string
  {
    if v.Some? then v.value else "*"
  }

  class DwPatient {
    var subjectId: Option<string>
    var patientId: Option<string>
    var patientName: Option<string>
    var patientBirthDate: Option<string>
    var patientSex: Option<string>
    var revision: Option<string>
    var numberOfStudies: int

    predicate Valid()
      reads this
    {
      IsInt32(numberOfStudies)
    }

    constructor()
      ensures Valid() && numberOfStudies == 0 && revision == None
      ensures subjectId == patientId == patientName == patientBirthDate == patientSex == None
    {
      subjectId := None;
      patientId := None;
      patientName := None;
      patientBirthDate := None;
      patientSex := None;
      revision := None;
      numberOfStudies := 0;
    }

    method DecrementNumberOfStudies()
      requires Valid()
      modifies this
      ensures Valid() && numberOfStudies == Decremented(old(numberOfStudies))
      ensures revision == old(revision) && patientId == old(patientId)
    {
      numberOfStudies := Decremented(numberOfStudies);
    }

    method IncrementNumberOfStudies()
      requires Valid()
      modifies this
      ensures Valid() && numberOfStudies == Incremented(old(numberOfStudies))
      ensures revision == old(revision) && patientId == old(patientId)
    {
      numberOfStudies := Incremented(numberOfStudies);
    }

    method SetNumberOfStudies(n: int)
      requires IsInt32(n)
      modifies this
      ensures Valid() && numberOfStudies == n && revision == old(revision)
    {
      numberOfStudies := n;
    }

    method SetRevision(r: Option<string>)
      modifies this
      ensures revision == r && numberOfStudies == old(numberOfStudies)
    {
      revision := r;
    }

    /** setData: the patient fields from the DICOM attributes ("*" for an
        absent one, the sex upper-cased), the data stamped with the current
        revision, and the study count reset. */
    method SetData(id: Option<string>, name: Option<string>, birthDate: Option<string>, sex: Option<string>)
      modifies this
      ensures Valid() && numberOfStudies == 0 && revision == Some(DataRevision)
      ensures patientId == Some(OrStar(id)) && patientName == Some(OrStar(name))
      ensures patientBirthDate == Some(OrStar(birthDate)) && patientSex == Some(ToUpper(OrStar(sex)))
      ensures subjectId == old(subjectId)
    {
      patientId := Some(OrStar(id));
      patientName := Some(OrStar(name));
      patientBirthDate := Some(OrStar(birthDate));
      patientSex := Some(ToUpper(OrStar(sex)));
      revision := Some(DataRevision);
      numberOfStudies := 0;
    }

    /** getQueryAttributes: nothing while the patient has no study, otherwise
        the study count under NumberOfPatientRelatedStudies. */
    function QueryAttributes(): (r: seq<IntAttribute>)
      reads this
      ensures r == [] <==> numberOfStudies == 0
      ensures r != [] ==> r == [IntAttribute(NumberOfPatientRelatedStudies, numberOfStudies)]
    {
      if numberOfStudies == 0 then [] else [IntAttribute(NumberOfPatientRelatedStudies, numberOfStudies)]
    }
  }

  /** The decremented count is never negative, and is one less whenever the
      count was positive. */
  lemma DecrementedSpec(n: int)
    requires IsInt32(n)
    ensures Decremented(n) >= 0
    ensures n > 0 ==> Decremented(n) == n - 1
    ensures n == 0 ==> Decremented(n) == 0
  {
  }

  /** Below INT_MAX, the increment adds exactly one and a decrement undoes it. */
  lemma IncrementThenDecrement(n: int)
    requires 0 <= n < INT_MAX
    ensures Incremented(n) == n + 1
    ensures Decremented(Incremented(n)) == n
  {
  }

  /** A negative count, which only setNumberOfStudies or an overflow can leave,
      is not pulled to zero at INT_MIN: there n - 1 wraps to INT_MAX. */
  lemma DecrementAtIntMin()
    ensures Decremented(INT_MIN) == INT_MAX
  {
    assert Wrap32(INT_MIN - 1) == INT_MAX;
  }

  /** Counting k studies in from zero (k below INT_MAX) gives k, and each one
      removed takes the count back down, never below zero. */
  lemma {:induction false} CountsUpAndDown(k: nat, d: nat)
    requires k < INT_MAX
    ensures Repeat(Incremented, 0, k) == k
    ensures Repeat(Decremented, k, d) == if d <= k then k - d else 0
  {
    if k > 0 {
      CountsUpAndDown(k - 1, 0);
    }
    RepeatDecremented(k, d);
  }

  lemma {:induction false} RepeatDecremented(n: nat, d: nat)
    requires n <= INT_MAX
    ensures Repeat(Decremented, n, d) == if d <= n then n - d else 0
  {
    if d > 0 {
      RepeatDecremented(n, d - 1);
      DecrementedSpec(Repeat(Decremented, n, d - 1));
    }
  }

  /** `f` applied `k` times. */
  function Repeat(f: int -> int, x: int, k: nat): int
  {
    if k == 0 then x else f(Repeat(f, x, k - 1))
  }
}

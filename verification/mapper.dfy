/** `BenefitsEnrollmentMapper.Map`: a parsed row becomes a persisted entity for
    the given employer name. */
module Mapper {
  import opened Wrappers
  import opened Errors
  import opened Records

  /** The five data fields of a row, the part the entity keeps. */
  predicate SameData(a: FileRecord, b: FileRecord) {
    && a.email == b.email && a.fullName == b.fullName && a.country == b.country
    && a.birthDate == b.birthDate && a.salary == b.salary
  }

  function Map(record: Option<FileRecord>, employerName: Option<string>): (r: Result<Enrollment, Exn>)
    ensures record.None? <==> r.Failure?
    ensures record.None? ==> r.error == ArgumentNull("record")
    ensures r.Success? ==>
      && r.value.id == 0
      && r.value.employerName == employerName
      && r.value.email == record.value.email
      && r.value.fullName == record.value.fullName
      && r.value.country == record.value.country
      && r.value.birthDate == record.value.birthDate
      && r.value.salary == record.value.salary
  {
    match record
    case None => Failure(ArgumentNull("record"))
    case Some(rec) =>
      Success(Enrollment(0, rec.email, rec.fullName, rec.country, rec.birthDate, rec.salary, employerName))
  }

  /** Two rows map to the same entity exactly when they agree on the five data
      fields and the employer names agree: the line number and raw line are
      dropped, nothing else is. */
  lemma MapForgetsOnlyPosition(a: FileRecord, b: FileRecord, nameA: Option<string>, nameB: Option<string>)
    ensures Map(Some(a), nameA) == Map(Some(b), nameB) <==> SameData(a, b) && nameA == nameB
  {
    if Map(Some(a), nameA) == Map(Some(b), nameB) {
      var ea := Map(Some(a), nameA).value;
      var eb := Map(Some(b), nameB).value;
      assert ea.email == eb.email && ea.employerName == eb.employerName;
    }
  }
}

/** The parsed file row and the persisted entity. Dates and decimals are
    kept opaque as integers: nothing here computes with them. */
module Records {
  import opened Wrappers

  /** A `DateTime` value. */
  type Date = int

  /** A `decimal` value. */
  type Decimal = int

  /** `BenefitsEnrollmentFileRecord`: the five delimited fields plus the line
      number and raw line the reader attaches after parsing. */
  datatype FileRecord = FileRecord(
    email: Option<string>,
    fullName: Option<string>,
    country: Option<string>,
    birthDate: Option<Date>,
    salary: Option<Decimal>,
    lineNumber: int,
    recordString: string)

  /** `BenefitsEnrollment`: the durable row; `id` is 0 until the store assigns one. */
  datatype Enrollment = Enrollment(
    id: int,
    email: Option<string>,
    fullName: Option<string>,
    country: Option<string>,
    birthDate: Option<Date>,
    salary: Option<Decimal>,
    employerName: Option<string>)
}

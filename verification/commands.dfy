/** The request objects the mediator dispatches; every string is nullable. */
module Commands {
  import opened Wrappers

  /** `ProcessBenefitsEnrollmentCommand`: one job for one employer and file. */
  datatype ProcessCommand = ProcessCommand(file: Option<string>, employerName: Option<string>)

  /** `RequestBenefitsEnrollmentCommand`: the submission that queues a job. */
  datatype RequestCommand = RequestCommand(file: Option<string>, employerName: Option<string>)

  /** `SignUpCommand`. */
  datatype SignUpCommand = SignUpCommand(email: Option<string>, password: Option<string>, country: Option<string>)
}

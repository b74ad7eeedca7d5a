/** `RequestBenefitsEnrollmentValidator`: a submission needs a file and an employer name. */
module RequestValidator {
  import opened Wrappers
  import opened Text
  import opened Validation
  import opened Commands

  const PresenceChecks: seq<Check> := [NotNull, NotEmpty]

  /** File rules, then employer-name rules; nothing else is checked. */
  function Validate(cmd: RequestCommand): (fs: seq<RuleFailure>)
    ensures forall i :: 0 <= i < |fs| ==> fs[i].property == "File" || fs[i].property == "EmployerName"
    ensures Mentions(fs, "File") <==> IsNullOrWhiteSpace(cmd.file)
    ensures Mentions(fs, "EmployerName") <==> IsNullOrWhiteSpace(cmd.employerName)
    ensures |fs| == 0 <==> !IsNullOrWhiteSpace(cmd.file) && !IsNullOrWhiteSpace(cmd.employerName)
  {
    var f := RuleFor("File", cmd.file, PresenceChecks);
    var n := RuleFor("EmployerName", cmd.employerName, PresenceChecks);
    assert PresenceChecks[1..][1..] == [];
    TwoRules(f, n, "File", "EmployerName");
    f + n
  }
}

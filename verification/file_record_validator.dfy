/** `BenefitsEnrollmentFileRecordValidator`: rules for one parsed file row. */
module FileRecordValidator {
  import opened Wrappers
  import opened Validation
  import opened Records

  /** E-mail rules, then country rules; no other field is checked. */
  function Validate(r: FileRecord): (fs: seq<RuleFailure>)
    ensures |fs| == 0 <==> AcceptableEmail(r.email) && AcceptableCountry(r.country)
    ensures forall i :: 0 <= i < |fs| ==> fs[i].property == "Email" || fs[i].property == "Country"
    ensures Mentions(fs, "Email") <==> !AcceptableEmail(r.email)
    ensures Mentions(fs, "Country") <==> !AcceptableCountry(r.country)
  {
    var e := EmailRule(r.email);
    var c := CountryRule(r.country);
    TwoRules(e, c, "Email", "Country");
    e + c
  }

  /** Full name, birth date, salary, line number and raw line never decide the outcome. */
  lemma OnlyEmailAndCountryMatter(a: FileRecord, b: FileRecord)
    requires a.email == b.email && a.country == b.country
    ensures Validate(a) == Validate(b)
  {
  }

  /** A text without '@' is not an e-mail address, so "plainaddress" fails on Email. */
  lemma PlainAddressRejected(r: FileRecord)
    requires r.email == Some("plainaddress")
    ensures RuleFailure("Email", EmailAddress) in Validate(r)
  {
    assert '@' !in "plainaddress";
    assert !Passes(EmailChecks[2], r.email);
    assert RuleFailure("Email", EmailAddress) in EmailRule(r.email);
  }

  /** The country bound is "at most two": "BRA" fails, "BR" and "B" do not. */
  lemma CountryAtMostTwo(r: FileRecord)
    ensures r.country == Some("BRA") ==> RuleFailure("Country", MaximumLength(2)) in Validate(r)
    ensures r.country == Some("BR") || r.country == Some("B") ==> !Mentions(Validate(r), "Country")
  {
    if r.country == Some("BRA") {
      assert !Passes(CountryChecks[2], r.country);
      assert RuleFailure("Country", MaximumLength(2)) in CountryRule(r.country);
    }
    if r.country == Some("BR") || r.country == Some("B") {
      var country := r.country.value;
      assert !Text.IsWhiteSpace(country[0]);
      assert AcceptableCountry(r.country);
    }
  }
}

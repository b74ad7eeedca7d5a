/** The slice of the validation library the validators use: a rule is a
    property plus a chain of checks; with the library's default cascade mode
    every failing check of the chain reports one failure, in chain order. */
module Validation {
  import opened Wrappers
  import opened Text

  datatype Severity = Error | Warning | Info

  /** `Severity.ToString()`. */
  function SeverityName(s: Severity): string {
    match s
    case Error => "Error"
    case Warning => "Warning"
    case Info => "Info"
  }

  /** `ValidationFailure` as a report line renders it. */
  datatype ValidationFailure = ValidationFailure(propertyName: string, errorMessage: string, severity: Severity)

  /** The character classes of the `Matches` patterns: `[A-Z]+`, `[a-z]+`,
      `[0-9]+` and `[\!\?\*\.]+`. */
  datatype CharClass = Upper | Lower | Digit | Symbol

  predicate InClass(cls: CharClass, c: char) {
    match cls
    case Upper => 'A' <= c <= 'Z'
    case Lower => 'a' <= c <= 'z'
    case Digit => '0' <= c <= '9'
    case Symbol => c == '!' || c == '?' || c == '*' || c == '.'
  }

  /** Some character of `s` is in the class. */
  predicate HasClass(cls: CharClass, s: string) {
    exists i :: 0 <= i < |s| && InClass(cls, s[i])
  }

  /** The checks used in this application. Messages given with `WithMessage`
      are carried; the library's default messages are not modelled. */
  datatype Check =
    | NotNull
    | NotEmpty
    | EmailAddress
    | MaximumLength(max: nat)
    | MinimumLength(min: nat, message: string)
    | Matches(cls: CharClass, message: string)

  /** One failed check of one property. */
  datatype RuleFailure = RuleFailure(property: string, check: Check)

  /** The library's default e-mail check: exactly one '@', neither first nor last. */
  predicate EmailShaped(s: string) {
    |s| > 0 && s[0] != '@' && s[|s| - 1] != '@' && CountChar('@', s) == 1
  }

  /** Whether a check accepts a value. Every check except `NotNull` and
      `NotEmpty` accepts null; `NotEmpty` also rejects whitespace-only text. */
  predicate Passes(check: Check, value: Option<string>) {
    match check
    case NotNull => value.Some?
    case NotEmpty => !IsNullOrWhiteSpace(value)
    case EmailAddress => value.None? || EmailShaped(value.value)
    case MaximumLength(max) => value.None? || |value.value| <= max
    case MinimumLength(min, _) => value.None? || |value.value| >= min
    case Matches(cls, _) => value.None? || HasClass(cls, value.value)
  }

  /** Every check of the chain accepts the value. */
  predicate AllPass(chain: seq<Check>, value: Option<string>)
    decreases |chain|
  {
    |chain| == 0 || (Passes(chain[0], value) && AllPass(chain[1..], value))
  }

  lemma {:induction false} AllPassEach(chain: seq<Check>, value: Option<string>)
    ensures AllPass(chain, value) <==> forall i :: 0 <= i < |chain| ==> Passes(chain[i], value)
    decreases |chain|
  {
    if |chain| > 0 {
      AllPassEach(chain[1..], value);
      assert forall i :: 1 <= i < |chain| ==> chain[i] == chain[1..][i - 1];
    }
  }

  /** Some failure in `fs` is about `property`. */
  predicate Mentions(fs: seq<RuleFailure>, property: string) {
    exists i :: 0 <= i < |fs| && fs[i].property == property
  }

  lemma MentionsConcat(a: seq<RuleFailure>, b: seq<RuleFailure>, property: string)
    ensures Mentions(a + b, property) <==> Mentions(a, property) || Mentions(b, property)
  {
    if Mentions(a, property) {
      var i :| 0 <= i < |a| && a[i].property == property;
      assert (a + b)[i] == a[i];
    }
    if Mentions(b, property) {
      var i :| 0 <= i < |b| && b[i].property == property;
      assert (a + b)[|a| + i] == b[i];
    }
  }

  /** Every failure in `fs` is about `property`. */
  predicate AllAbout(fs: seq<RuleFailure>, property: string) {
    forall i :: 0 <= i < |fs| ==> fs[i].property == property
  }

  /** The failures of two rules for two different properties, one after the other. */
  lemma TwoRules(a: seq<RuleFailure>, b: seq<RuleFailure>, pa: string, pb: string)
    requires AllAbout(a, pa) && AllAbout(b, pb) && pa != pb
    ensures |a + b| == 0 <==> |a| == 0 && |b| == 0
    ensures Mentions(a + b, pa) <==> |a| > 0
    ensures Mentions(a + b, pb) <==> |b| > 0
    ensures forall i :: 0 <= i < |a + b| ==> (a + b)[i].property == pa || (a + b)[i].property == pb
  {
    MentionsConcat(a, b, pa);
    MentionsConcat(a, b, pb);
    if |a| > 0 { assert a[0].property == pa; }
    if |b| > 0 { assert b[0].property == pb; }
  }

  /** The same for three rules. */
  lemma ThreeRules(a: seq<RuleFailure>, b: seq<RuleFailure>, c: seq<RuleFailure>, pa: string, pb: string, pc: string)
    requires AllAbout(a, pa) && AllAbout(b, pb) && AllAbout(c, pc)
    requires pa != pb && pb != pc && pa != pc
    ensures |a + b + c| == 0 <==> |a| == 0 && |b| == 0 && |c| == 0
    ensures Mentions(a + b + c, pa) <==> |a| > 0
    ensures Mentions(a + b + c, pb) <==> |b| > 0
    ensures Mentions(a + b + c, pc) <==> |c| > 0
  {
    TwoRules(a, b, pa, pb);
    MentionsConcat(a + b, c, pa);
    MentionsConcat(a + b, c, pb);
    MentionsConcat(a + b, c, pc);
    if |c| > 0 { assert c[0].property == pc; }
  }

  /** `RuleFor(property)` followed by `chain`: the failures, in chain order. */
  function RuleFor(property: string, value: Option<string>, chain: seq<Check>): (fs: seq<RuleFailure>)
    ensures |fs| <= |chain|
    ensures forall i :: 0 <= i < |fs| ==> fs[i].property == property
    ensures forall i :: 0 <= i < |fs| ==> fs[i].check in chain && !Passes(fs[i].check, value)
    ensures forall i :: 0 <= i < |chain| && !Passes(chain[i], value) ==> RuleFailure(property, chain[i]) in fs
    ensures |fs| == 0 <==> AllPass(chain, value)
    decreases |chain|
  {
    if |chain| == 0 then []
    else
      var rest := RuleFor(property, value, chain[1..]);
      assert forall i :: 1 <= i < |chain| ==> chain[i] == chain[1..][i - 1];
      if Passes(chain[0], value) then rest else [RuleFailure(property, chain[0])] + rest
  }

  /** The e-mail chain shared by the file-record and sign-up validators. */
  const EmailChecks: seq<Check> := [NotNull, NotEmpty, EmailAddress, MaximumLength(320)]

  /** The country chain shared by the file-record and sign-up validators. */
  const CountryChecks: seq<Check> := [NotNull, NotEmpty, MaximumLength(2)]

  /** What the e-mail chain accepts, stated directly. */
  predicate AcceptableEmail(email: Option<string>) {
    email.Some? && !IsNullOrWhiteSpace(email) && EmailShaped(email.value) && |email.value| <= 320
  }

  /** What the country chain accepts: one or two characters, not all whitespace. */
  predicate AcceptableCountry(country: Option<string>) {
    country.Some? && !IsNullOrWhiteSpace(country) && |country.value| <= 2
  }

  function EmailRule(email: Option<string>): (fs: seq<RuleFailure>)
    ensures |fs| == 0 <==> AcceptableEmail(email)
    ensures Mentions(fs, "Email") <==> !AcceptableEmail(email)
    ensures forall i :: 0 <= i < |fs| ==> fs[i].property == "Email"
  {
    var fs := RuleFor("Email", email, EmailChecks);
    assert EmailChecks[1..][1..][1..][1..] == [];
    fs
  }

  function CountryRule(country: Option<string>): (fs: seq<RuleFailure>)
    ensures |fs| == 0 <==> AcceptableCountry(country)
    ensures Mentions(fs, "Country") <==> !AcceptableCountry(country)
    ensures forall i :: 0 <= i < |fs| ==> fs[i].property == "Country"
  {
    var fs := RuleFor("Country", country, CountryChecks);
    assert CountryChecks[1..][1..][1..] == [];
    fs
  }
}

/** `SignUpValidator`: e-mail, password and country rules of a sign-up. */
module SignUpValidator {
  import opened Wrappers
  import opened Text
  import opened Validation
  import opened Commands

  const LengthMessage := "Password length must be at least 8."
  const UpperMessage := "Password must contain at least one uppercase letter."
  const LowerMessage := "Password must contain at least one lowercase letter."
  const DigitMessage := "Password must contain at least one number."
  const SymbolMessage := "Password must contain at least one (!? *.)."

  /** The password chain; there is deliberately no maximum length. */
  const PasswordChecks: seq<Check> := [
    NotNull, NotEmpty, MinimumLength(8, LengthMessage),
    Matches(Upper, UpperMessage), Matches(Lower, LowerMessage),
    Matches(Digit, DigitMessage), Matches(Symbol, SymbolMessage)]

  /** What the password chain accepts, stated directly. */
  predicate StrongPassword(p: Option<string>) {
    && p.Some? && !IsNullOrWhiteSpace(p) && |p.value| >= 8
    && HasClass(Upper, p.value) && HasClass(Lower, p.value)
    && HasClass(Digit, p.value) && HasClass(Symbol, p.value)
  }

  /** The password chain accepts exactly the strong passwords. */
  lemma PasswordChecksAccept(password: Option<string>)
    ensures AllPass(PasswordChecks, password) <==> StrongPassword(password)
  {
    var c := PasswordChecks;
    assert AllPass(c, password) <==> Passes(c[0], password) && AllPass(c[1..], password);
    assert AllPass(c[1..], password) <==> Passes(c[1], password) && AllPass(c[2..], password)
      by { assert c[1..][1..] == c[2..]; }
    assert AllPass(c[2..], password) <==> Passes(c[2], password) && AllPass(c[3..], password)
      by { assert c[2..][1..] == c[3..]; }
    assert AllPass(c[3..], password) <==> Passes(c[3], password) && AllPass(c[4..], password)
      by { assert c[3..][1..] == c[4..]; }
    assert AllPass(c[4..], password) <==> Passes(c[4], password) && AllPass(c[5..], password)
      by { assert c[4..][1..] == c[5..]; }
    assert AllPass(c[5..], password) <==> Passes(c[5], password) && AllPass(c[6..], password)
      by { assert c[5..][1..] == c[6..]; }
    assert AllPass(c[6..], password) <==> Passes(c[6], password)
      by { assert c[6..][1..] == []; }
  }

  function PasswordRule(password: Option<string>): (fs: seq<RuleFailure>)
    ensures |fs| == 0 <==> StrongPassword(password)
    ensures Mentions(fs, "Password") <==> !StrongPassword(password)
    ensures forall i :: 0 <= i < |fs| ==> fs[i].property == "Password"
  {
    PasswordChecksAccept(password);
    var fs := RuleFor("Password", password, PasswordChecks);
    assert |fs| > 0 ==> fs[0].property == "Password";
    fs
  }

  /** E-mail rules, then password rules, then country rules. */
  function Validate(cmd: SignUpCommand): (fs: seq<RuleFailure>)
    ensures |fs| == 0 <==>
      AcceptableEmail(cmd.email) && StrongPassword(cmd.password) && AcceptableCountry(cmd.country)
    ensures Mentions(fs, "Email") <==> !AcceptableEmail(cmd.email)
    ensures Mentions(fs, "Password") <==> !StrongPassword(cmd.password)
    ensures Mentions(fs, "Country") <==> !AcceptableCountry(cmd.country)
  {
    var e := EmailRule(cmd.email);
    var p := PasswordRule(cmd.password);
    var c := CountryRule(cmd.country);
    ThreeRules(e, p, c, "Email", "Password", "Country");
    e + p + c
  }

  /** "x4xxfgKr5T*" satisfies every password rule. */
  lemma SamplePasswordAccepted()
    ensures PasswordRule(Some("x4xxfgKr5T*")) == []
  {
    var p := "x4xxfgKr5T*";
    assert !IsWhiteSpace(p[0]);
    assert InClass(Upper, p[6]) && InClass(Lower, p[0]) && InClass(Digit, p[1]) && InClass(Symbol, p[10]);
  }

  lemma Password1Classes(v: Option<string>)
    requires v == Some("Password1")
    ensures
      && Passes(PasswordChecks[0], v) && Passes(PasswordChecks[1], v) && Passes(PasswordChecks[2], v)
      && Passes(PasswordChecks[3], v) && Passes(PasswordChecks[4], v) && Passes(PasswordChecks[5], v)
      && !Passes(PasswordChecks[6], v)
  {
    var p := v.value;
    assert !IsWhiteSpace(p[0]);
    assert InClass(Upper, p[0]) && InClass(Lower, p[1]) && InClass(Digit, p[8]);
    assert !HasClass(Symbol, p);
  }

  /** "Password1" fails on the symbol rule and on nothing else. */
  lemma MissingSymbolIsTheOnlyFailure(v: Option<string>)
    requires v == Some("Password1")
    ensures PasswordRule(v) == [RuleFailure("Password", Matches(Symbol, SymbolMessage))]
  {
    var c := PasswordChecks;
    Password1Classes(v);
    assert RuleFor("Password", v, c) == RuleFor("Password", v, c[1..]);
    assert RuleFor("Password", v, c[1..]) == RuleFor("Password", v, c[2..]) by { assert c[1..][1..] == c[2..]; }
    assert RuleFor("Password", v, c[2..]) == RuleFor("Password", v, c[3..]) by { assert c[2..][1..] == c[3..]; }
    assert RuleFor("Password", v, c[3..]) == RuleFor("Password", v, c[4..]) by { assert c[3..][1..] == c[4..]; }
    assert RuleFor("Password", v, c[4..]) == RuleFor("Password", v, c[5..]) by { assert c[4..][1..] == c[5..]; }
    assert RuleFor("Password", v, c[5..]) == RuleFor("Password", v, c[6..]) by { assert c[5..][1..] == c[6..]; }
    assert c[6..] == [Matches(Symbol, SymbolMessage)];
  }

  /** A space is not one of the accepted symbols, whatever the message shows. */
  lemma SpaceIsNotASymbol()
    ensures !StrongPassword(Some("Password1 "))
  {
    var p := "Password1 ";
    assert forall i :: 0 <= i < |p| ==> !InClass(Symbol, p[i]);
  }
}

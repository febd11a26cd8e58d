/**
 The job application validator: a pure function from the form's field values
 to a map from field name to error message. Every field has a "required" rule
 and, for most, an "invalid" rule tried only when the field is non-empty; the
 experience and portfolio rules apply only for some positions.
 */
module Validator {
  import opened Patterns

  datatype Option<T> = None | Some(value: T)

  /** The record of field values the form keeps. `submitted` is absent (falsy) until a submit succeeds. */
  datatype FormValues = FormValues(
    fullName: string,
    email: string,
    phoneNumber: string,
    position: string,
    experience: string,
    portfolioUrl: string,
    managementExperience: string,
    skills: seq<string>,
    interviewTime: string,
    submitted: bool)

  /**
   The two host-language conversions the rules rely on, which are not part of
   the form's own code: JavaScript's string-to-number coercion (`None` stands
   for NaN) and whether `Date.parse` yields a number rather than NaN.
   */
  datatype Host = Host(toNumber: string -> Option<real>, parsesAsDate: string -> bool)

  /** The form's initial values: every text field empty, no skills. */
  const Initial := FormValues("", "", "", "", "", "", "", [], "", false)

  const FullNameKey := "fullName"
  const EmailKey := "email"
  const PhoneKey := "phoneNumber"
  const ExperienceKey := "experience"
  const PortfolioKey := "portfolioUrl"
  const SkillsKey := "skills"
  const InterviewKey := "interviewTime"

  /** Every field name that can carry an error. */
  const ErrorKeys: set<string> :=
    {FullNameKey, EmailKey, PhoneKey, ExperienceKey, PortfolioKey, SkillsKey, InterviewKey}

  const FullNameRequired := "Full name is required."
  const EmailRequired := "Email is required."
  const EmailInvalid := "Email address is invalid."
  const PhoneRequired := "Phone number is required."
  const PhoneInvalid := "Phone number is invalid."
  const ExperienceRequired := "Relevant experience is required."
  const ExperienceInvalid := "Experience must be greater than 0."
  const PortfolioRequired := "Portfolio URL is required."
  const PortfolioInvalid := "URL is invalid."
  const SkillsRequired := "At least one skill must be selected."
  const InterviewRequired := "Preferred interview time is required."
  const InterviewInvalid := "Interview time is invalid."

  /** The positions for which relevant experience is asked. */
  predicate AsksExperience(position: string) {
    position == "Developer" || position == "Designer"
  }

  /** `experience <= 0` in JavaScript: the coerced number is not positive; NaN compares false. */
  predicate NotPositive(host: Host, experience: string) {
    match host.toNumber(experience)
    case Some(x) => x <= 0.0
    case None => false
  }

  /**
   The rule table, field by field and independent of evaluation order: the
   message the field named `key` should carry, or `None`. The e-mail, phone
   and portfolio entries are stated with the declarative readings of the three
   patterns, so only they have a reading independent of the checks below; the
   other four entries are those checks themselves, and for them the
   agreement lemmas show only that no other rule touches the key.
   */
  ghost function ExpectedError(v: FormValues, host: Host, key: string): Option<string> {
    if key == FullNameKey then FullNameCheck(v)
    else if key == EmailKey then
      if v.email == "" then Some(EmailRequired)
      else if !EmailShaped(v.email) then Some(EmailInvalid)
      else None
    else if key == PhoneKey then
      if v.phoneNumber == "" then Some(PhoneRequired)
      else if exists i :: 0 <= i < |v.phoneNumber| && !IsDigit(v.phoneNumber[i]) then Some(PhoneInvalid)
      else None
    else if key == ExperienceKey then ExperienceCheck(v, host)
    else if key == PortfolioKey then
      if v.position != "Designer" then None
      else if v.portfolioUrl == "" then Some(PortfolioRequired)
      else if !UrlShaped(v.portfolioUrl) then Some(PortfolioInvalid)
      else None
    else if key == SkillsKey then SkillsCheck(v)
    else if key == InterviewKey then InterviewCheck(v, host)
    else None
  }

  /** Looks `key` up in an error map. */
  function Lookup(errors: map<string, string>, key: string): Option<string> {
    if key in errors then Some(errors[key]) else None
  }

  /** Records one rule's outcome under its field name, as `errors.key = message` does, or leaves the map alone. */
  function Record(errors: map<string, string>, key: string, outcome: Option<string>): map<string, string> {
    match outcome
    case Some(message) => errors[key := message]
    case None => errors
  }

  function FullNameCheck(v: FormValues): Option<string> {
    if v.fullName == "" then Some(FullNameRequired) else None
  }

  function EmailCheck(v: FormValues): Option<string> {
    if v.email == "" then Some(EmailRequired)
    else if !EmailMatches(v.email) then Some(EmailInvalid)
    else None
  }

  function PhoneCheck(v: FormValues): Option<string> {
    if v.phoneNumber == "" then Some(PhoneRequired)
    else if !PhoneMatches(v.phoneNumber) then Some(PhoneInvalid)
    else None
  }

  function ExperienceCheck(v: FormValues, host: Host): Option<string> {
    if !AsksExperience(v.position) then None
    else if v.experience == "" then Some(ExperienceRequired)
    else if NotPositive(host, v.experience) then Some(ExperienceInvalid)
    else None
  }

  function PortfolioCheck(v: FormValues): Option<string> {
    if v.position != "Designer" then None
    else if v.portfolioUrl == "" then Some(PortfolioRequired)
    else if !UrlMatches(v.portfolioUrl) then Some(PortfolioInvalid)
    else None
  }

  function SkillsCheck(v: FormValues): Option<string> {
    if |v.skills| == 0 then Some(SkillsRequired) else None
  }

  function InterviewCheck(v: FormValues, host: Host): Option<string> {
    if v.interviewTime == "" then Some(InterviewRequired)
    else if !host.parsesAsDate(v.interviewTime) then Some(InterviewInvalid)
    else None
  }

  /**
   `validate(values)`: starts from an empty map and runs the rules one after
   another, each recording at most one entry under its own field name.
   */
  function Validate(v: FormValues, host: Host): (r: map<string, string>)
    ensures r.Keys <= ErrorKeys
  {
    var e1 := Record(map[], FullNameKey, FullNameCheck(v));
    var e2 := Record(e1, EmailKey, EmailCheck(v));
    var e3 := Record(e2, PhoneKey, PhoneCheck(v));
    var e4 := Record(e3, ExperienceKey, ExperienceCheck(v, host));
    var e5 := Record(e4, PortfolioKey, PortfolioCheck(v));
    var e6 := Record(e5, SkillsKey, SkillsCheck(v));
    Record(e6, InterviewKey, InterviewCheck(v, host))
  }

  // ---------------------------------------------------------------------------
  // The validator follows the rule table, one field at a time

  lemma FullNameFollowsRule(v: FormValues, host: Host)
    ensures Lookup(Validate(v, host), FullNameKey) == ExpectedError(v, host, FullNameKey)
  {
  }

  lemma EmailFollowsRule(v: FormValues, host: Host)
    ensures Lookup(Validate(v, host), EmailKey) == ExpectedError(v, host, EmailKey)
  {
    EmailMatchesSpec(v.email);
  }

  lemma PhoneFollowsRule(v: FormValues, host: Host)
    ensures Lookup(Validate(v, host), PhoneKey) == ExpectedError(v, host, PhoneKey)
  {
    AllDigitsSpec(v.phoneNumber);
  }

  lemma ExperienceFollowsRule(v: FormValues, host: Host)
    ensures Lookup(Validate(v, host), ExperienceKey) == ExpectedError(v, host, ExperienceKey)
  {
  }

  lemma PortfolioFollowsRule(v: FormValues, host: Host)
    ensures Lookup(Validate(v, host), PortfolioKey) == ExpectedError(v, host, PortfolioKey)
  {
    UrlMatchesSpec(v.portfolioUrl);
  }

  lemma SkillsFollowsRule(v: FormValues, host: Host)
    ensures Lookup(Validate(v, host), SkillsKey) == ExpectedError(v, host, SkillsKey)
  {
  }

  lemma InterviewFollowsRule(v: FormValues, host: Host)
    ensures Lookup(Validate(v, host), InterviewKey) == ExpectedError(v, host, InterviewKey)
  {
  }

  /** Every entry of the validator's result, present or absent, is the one the rule table gives. */
  lemma ValidateFollowsRules(v: FormValues, host: Host, key: string)
    ensures Lookup(Validate(v, host), key) == ExpectedError(v, host, key)
  {
    if key == FullNameKey { FullNameFollowsRule(v, host); }
    else if key == EmailKey { EmailFollowsRule(v, host); }
    else if key == PhoneKey { PhoneFollowsRule(v, host); }
    else if key == ExperienceKey { ExperienceFollowsRule(v, host); }
    else if key == PortfolioKey { PortfolioFollowsRule(v, host); }
    else if key == SkillsKey { SkillsFollowsRule(v, host); }
    else if key == InterviewKey { InterviewFollowsRule(v, host); }
  }

  /** The error map is empty exactly when every field passes its rule. */
  lemma ValidateEmptyIff(v: FormValues, host: Host)
    ensures Validate(v, host) == map[] <==> forall k :: ExpectedError(v, host, k) == None
  {
    forall k
      ensures Lookup(Validate(v, host), k) == ExpectedError(v, host, k)
    {
      ValidateFollowsRules(v, host, k);
    }
    if forall k :: ExpectedError(v, host, k) == None {
      forall k
        ensures k !in Validate(v, host)
      {
        assert Lookup(Validate(v, host), k) == None;
      }
      assert Validate(v, host).Keys == {};
    }
  }

  // ---------------------------------------------------------------------------
  // Properties of the validator

  /** Only the seven validated fields can carry an error; management experience never does. */
  lemma ErrorKeysBounded(v: FormValues, host: Host)
    ensures Validate(v, host).Keys <= ErrorKeys
    ensures "managementExperience" !in Validate(v, host)
  {
  }

  /** The message a field gets when it is left empty. */
  function RequiredMessage(key: string): string
    requires key in ErrorKeys
  {
    if key == FullNameKey then FullNameRequired
    else if key == EmailKey then EmailRequired
    else if key == PhoneKey then PhoneRequired
    else if key == ExperienceKey then ExperienceRequired
    else if key == PortfolioKey then PortfolioRequired
    else if key == SkillsKey then SkillsRequired
    else InterviewRequired
  }

  /** Whether the field named `key` is empty in `v`. */
  predicate IsEmptyField(v: FormValues, key: string)
    requires key in ErrorKeys
  {
    if key == FullNameKey then v.fullName == ""
    else if key == EmailKey then v.email == ""
    else if key == PhoneKey then v.phoneNumber == ""
    else if key == ExperienceKey then v.experience == ""
    else if key == PortfolioKey then v.portfolioUrl == ""
    else if key == SkillsKey then |v.skills| == 0
    else v.interviewTime == ""
  }

  /** Whether the rule for `key` is in force for the selected position. */
  predicate RuleApplies(v: FormValues, key: string) {
    if key == ExperienceKey then AsksExperience(v.position)
    else if key == PortfolioKey then v.position == "Designer"
    else true
  }

  /**
   The "required" message is given exactly when the field's rule applies and
   the field is empty; a non-empty field never gets it, so at most one of the
   two messages is ever present.
   */
  lemma RequiredExactlyWhenEmpty(v: FormValues, host: Host, key: string)
    requires key in ErrorKeys
    ensures var r := Validate(v, host);
      (key in r && r[key] == RequiredMessage(key)) <==> (RuleApplies(v, key) && IsEmptyField(v, key))
  {
    var r := Validate(v, host);
    ValidateFollowsRules(v, host, key);
  }

  /** A non-empty phone number passes exactly when it is all digits, and otherwise gets the "invalid" message. */
  lemma PhoneRule(v: FormValues, host: Host)
    requires v.phoneNumber != ""
    ensures PhoneKey !in Validate(v, host) <==> forall i :: 0 <= i < |v.phoneNumber| ==> IsDigit(v.phoneNumber[i])
    ensures PhoneKey in Validate(v, host) ==> Validate(v, host)[PhoneKey] == PhoneInvalid
  {
    ValidateFollowsRules(v, host, PhoneKey);
  }

  /** A non-empty e-mail address passes exactly when the e-mail pattern occurs in it. */
  lemma EmailRule(v: FormValues, host: Host)
    requires v.email != ""
    ensures EmailKey !in Validate(v, host) <==> EmailShaped(v.email)
    ensures EmailKey in Validate(v, host) ==> Validate(v, host)[EmailKey] == EmailInvalid
  {
    ValidateFollowsRules(v, host, EmailKey);
  }

  /** Positions other than Developer and Designer never get an experience error, whatever the field holds. */
  lemma NoExperienceErrorOtherwise(v: FormValues, host: Host)
    requires v.position != "Developer" && v.position != "Designer"
    ensures ExperienceKey !in Validate(v, host)
  {
    ValidateFollowsRules(v, host, ExperienceKey);
  }

  /** For Developer and Designer, an experience the host cannot read as a number (NaN) is accepted. */
  lemma ExperienceNaNAccepted(v: FormValues, host: Host)
    requires AsksExperience(v.position) && v.experience != "" && host.toNumber(v.experience) == None
    ensures ExperienceKey !in Validate(v, host)
  {
    ValidateFollowsRules(v, host, ExperienceKey);
  }

  /** Positions other than Designer never get a portfolio error. */
  lemma NoPortfolioErrorOtherwise(v: FormValues, host: Host)
    requires v.position != "Designer"
    ensures PortfolioKey !in Validate(v, host)
  {
    ValidateFollowsRules(v, host, PortfolioKey);
  }

  /** For a Designer, "http://a.com" is an acceptable portfolio URL and "notaurl" is not. */
  lemma DesignerPortfolioExamples(v: FormValues, host: Host)
    requires v.position == "Designer"
    ensures v.portfolioUrl == "http://a.com" ==> PortfolioKey !in Validate(v, host)
    ensures v.portfolioUrl == "notaurl" ==> Lookup(Validate(v, host), PortfolioKey) == Some(PortfolioInvalid)
  {
    UrlSamples();
    PortfolioFollowsRule(v, host);
    UrlMatchesSpec(v.portfolioUrl);
  }

  /** An empty skills list is always reported, whatever the other fields hold. */
  lemma EmptySkillsAlwaysReported(v: FormValues, host: Host)
    requires |v.skills| == 0
    ensures Validate(v, host)[SkillsKey] == SkillsRequired
  {
    ValidateFollowsRules(v, host, SkillsKey);
  }

  /** The fields the rule for `key` reads agree in `v` and `w`. */
  predicate AgreeOnInputs(v: FormValues, w: FormValues, key: string) {
    if key == FullNameKey then v.fullName == w.fullName
    else if key == EmailKey then v.email == w.email
    else if key == PhoneKey then v.phoneNumber == w.phoneNumber
    else if key == ExperienceKey then v.position == w.position && v.experience == w.experience
    else if key == PortfolioKey then v.position == w.position && v.portfolioUrl == w.portfolioUrl
    else if key == SkillsKey then |v.skills| == |w.skills|
    else if key == InterviewKey then v.interviewTime == w.interviewTime
    else true
  }

  /**
   The rules do not depend on one another: the entry for a field depends only
   on that field, plus `position` for the experience and portfolio entries.
   */
  lemma RulesIndependent(v: FormValues, w: FormValues, host: Host, key: string)
    requires AgreeOnInputs(v, w, key)
    ensures Lookup(Validate(v, host), key) == Lookup(Validate(w, host), key)
  {
    ValidateFollowsRules(v, host, key);
    ValidateFollowsRules(w, host, key);
  }

  /** With every field empty, exactly the five unconditional fields are reported as required. */
  lemma InitialErrors(host: Host)
    ensures Validate(Initial, host) == map[
      FullNameKey := FullNameRequired, EmailKey := EmailRequired, PhoneKey := PhoneRequired,
      SkillsKey := SkillsRequired, InterviewKey := InterviewRequired]
  {
  }

  /** The example applicant: a Developer with three years of experience. */
  function Example(email: string, interviewTime: string): FormValues {
    FormValues("Jo", email, "5551234", "Developer", "3", "", "", ["JavaScript"], interviewTime, false)
  }

  /** The example applicant passes every rule when the host reads "3" as 3 and the interview time as a date. */
  lemma ExampleIsValid(host: Host, time: string)
    requires host.toNumber("3") == Some(3.0) && time != "" && host.parsesAsDate(time)
    ensures Validate(Example("jo@x.com", time), host) == map[]
  {
    EmailSamples();
    assert PhoneMatches("5551234");
    assert !NotPositive(host, "3");
  }

  /** Changing only the e-mail address to "bad" yields exactly the "invalid e-mail" error. */
  lemma ExampleBadEmail(host: Host, time: string)
    requires host.toNumber("3") == Some(3.0) && time != "" && host.parsesAsDate(time)
    ensures Validate(Example("bad", time), host) == map[EmailKey := EmailInvalid]
  {
    EmailSamples();
    assert PhoneMatches("5551234");
    assert !NotPositive(host, "3");
  }
}

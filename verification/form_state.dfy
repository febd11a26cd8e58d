/**
 The form-state hook as a plain state record with step functions: the
 current field values and the error map of the last submit, changed by text
 and select inputs, skill checkboxes and the submit button.
 */
module FormState {
  import opened Validator

  /** The scalar fields a text, e-mail, number, url, select, textarea or date-time input writes, by `name`. */
  datatype Field =
    | FullName | Email | PhoneNumber | Position | Experience
    | PortfolioUrl | ManagementExperience | InterviewTime

  /** The hook's two pieces of state: the field values and the error map shown next to the fields. */
  datatype State = State(values: FormValues, errors: map<string, string>)

  /** The state the form is created in: initial values and no errors. */
  const Start := State(Initial, map[])

  /** The value of a scalar field. */
  function Get(v: FormValues, f: Field): string {
    match f
    case FullName => v.fullName
    case Email => v.email
    case PhoneNumber => v.phoneNumber
    case Position => v.position
    case Experience => v.experience
    case PortfolioUrl => v.portfolioUrl
    case ManagementExperience => v.managementExperience
    case InterviewTime => v.interviewTime
  }

  /**
   `handleInputChange`: the input named `f` now holds `value`. Nothing is
   validated, and the errors of the last submit stay as they are.
   */
  function InputChange(s: State, f: Field, value: string): (s': State)
    ensures Get(s'.values, f) == value
    ensures forall g :: g != f ==> Get(s'.values, g) == Get(s.values, g)
    ensures s'.values.skills == s.values.skills && s'.values.submitted == s.values.submitted
    ensures s'.errors == s.errors
  {
    var v := s.values;
    var v' := match f
      case FullName => v.(fullName := value)
      case Email => v.(email := value)
      case PhoneNumber => v.(phoneNumber := value)
      case Position => v.(position := value)
      case Experience => v.(experience := value)
      case PortfolioUrl => v.(portfolioUrl := value)
      case ManagementExperience => v.(managementExperience := value)
      case InterviewTime => v.(interviewTime := value);
    State(v', s.errors)
  }

  // ---------------------------------------------------------------------------
  // The skills list

  /** `a` can be obtained from `b` by deleting elements, so `a` keeps `b`'s order. */
  predicate IsSubsequence(a: seq<string>, b: seq<string>)
    decreases |b|
  {
    |a| == 0 ||
    (|b| > 0 && ((a[0] == b[0] && IsSubsequence(a[1..], b[1..])) || IsSubsequence(a, b[1..])))
  }

  /**
   `xs.filter(item => item !== x)`: every occurrence of `x` is gone and every
   other element is kept, as often as before and in its original order.
   */
  function Without(xs: seq<string>, x: string): (r: seq<string>)
    ensures x !in r
    ensures forall y :: y != x ==> multiset(r)[y] == multiset(xs)[y]
    ensures IsSubsequence(r, xs)
  {
    if |xs| == 0 then []
    else
      assert xs == [xs[0]] + xs[1..];
      if xs[0] == x then Without(xs[1..], x)
      else
        var r := [xs[0]] + Without(xs[1..], x);
        assert r[1..] == Without(xs[1..], x);
        r
  }

  /**
   `handleCheckboxChange` for the `skills` checkboxes: checking appends the
   skill to the end of the list, without testing whether it is already there;
   unchecking removes every occurrence. No other field and no error changes.
   */
  function CheckboxChange(s: State, skill: string, checked: bool): (s': State)
    ensures s'.errors == s.errors
    ensures s'.values == s.values.(skills := s'.values.skills)
    ensures checked ==>
      && |s'.values.skills| == |s.values.skills| + 1
      && s'.values.skills[..|s.values.skills|] == s.values.skills
      && s'.values.skills[|s.values.skills|] == skill
    ensures !checked ==> s'.values.skills == Without(s.values.skills, skill)
  {
    var skills := s.values.skills;
    var skills' := if checked then skills + [skill] else Without(skills, skill);
    State(s.values.(skills := skills'), s.errors)
  }

  /** Filtering `x` out of a list it was appended to, and was not in before, gives back the list. */
  lemma {:induction false} WithoutAppended(xs: seq<string>, x: string)
    requires x !in xs
    ensures Without(xs + [x], x) == xs
  {
    if |xs| == 0 {
      assert [x][1..] == [];
    } else {
      assert (xs + [x])[1..] == xs[1..] + [x];
      WithoutAppended(xs[1..], x);
      assert xs == [xs[0]] + xs[1..];
    }
  }

  /** Checking a skill that is not in the list and then unchecking it restores the whole state. */
  lemma CheckThenUncheck(s: State, skill: string)
    requires skill !in s.values.skills
    ensures CheckboxChange(CheckboxChange(s, skill, true), skill, false) == s
  {
    WithoutAppended(s.values.skills, skill);
  }

  /** No skill occurs twice. */
  ghost predicate Distinct(xs: seq<string>) {
    forall y :: multiset(xs)[y] <= 1
  }

  /** The skill names the form offers a checkbox for. */
  const Catalog: set<string> := {"JavaScript", "CSS", "Python"}

  /**
   The rendered checkbox for `skill` is ticked exactly when the list contains
   it, so a click reports `checked` as the opposite. Under that discipline the
   list never holds a skill twice, and holds only offered skills.
   */
  lemma CheckboxKeepsSkillsDistinct(s: State, skill: string, checked: bool)
    requires Distinct(s.values.skills)
    requires checked <==> skill !in s.values.skills
    ensures Distinct(CheckboxChange(s, skill, checked).values.skills)
  {
    var skills := s.values.skills;
    if checked {
      assert multiset(skills + [skill]) == multiset(skills) + multiset{skill};
    }
  }

  lemma CheckboxKeepsCatalog(s: State, skill: string, checked: bool)
    requires forall k :: 0 <= k < |s.values.skills| ==> s.values.skills[k] in Catalog
    requires skill in Catalog
    ensures var skills' := CheckboxChange(s, skill, checked).values.skills;
      forall k :: 0 <= k < |skills'| ==> skills'[k] in Catalog
  {
    var skills := s.values.skills;
    var skills' := CheckboxChange(s, skill, checked).values.skills;
    if !checked {
      forall k | 0 <= k < |skills'|
        ensures skills'[k] in Catalog
      {
        assert skills'[k] in multiset(skills');
        assert skills'[k] in multiset(skills);
      }
    }
  }

  // ---------------------------------------------------------------------------
  // Submitting

  /**
   `handleSubmit`: the error map becomes the validator's verdict on the
   current values, whatever it was before. When the verdict is empty the form
   is marked submitted; otherwise the values stay exactly as they were, so a
   form already marked submitted stays marked.
   */
  function Submit(s: State, validate: FormValues -> map<string, string>): (s': State)
    ensures s'.errors == validate(s.values)
    ensures s'.values.submitted <==> s.values.submitted || |s'.errors| == 0
    ensures s'.values.(submitted := s.values.submitted) == s.values
  {
    var errors := validate(s.values);
    if |errors| == 0 then State(s.values.(submitted := true), errors)
    else State(s.values, errors)
  }

  /** One user interaction. */
  datatype Event =
    | Input(field: Field, value: string)
    | Click(skill: string, checked: bool)
    | SubmitPressed

  function Step(s: State, e: Event, validate: FormValues -> map<string, string>): State {
    match e
    case Input(f, value) => InputChange(s, f, value)
    case Click(skill, checked) => CheckboxChange(s, skill, checked)
    case SubmitPressed => Submit(s, validate)
  }

  /** The state after handling `events` in order, starting from `s`. */
  function Run(s: State, events: seq<Event>, validate: FormValues -> map<string, string>): State
    decreases |events|
  {
    if |events| == 0 then s
    else Step(Run(s, events[..|events| - 1], validate), events[|events| - 1], validate)
  }

  /** Event `i` is a submit that found no error, so it showed an empty error map. */
  predicate SucceededAt(s: State, events: seq<Event>, validate: FormValues -> map<string, string>, i: int) {
    0 <= i < |events| && events[i].SubmitPressed? && Run(s, events[..i + 1], validate).errors == map[]
  }

  /** Only a submit that finds no error changes the mark, and it only ever sets it. */
  lemma StepSubmitted(t: State, e: Event, validate: FormValues -> map<string, string>)
    ensures Step(t, e, validate).values.submitted <==>
      t.values.submitted || (e.SubmitPressed? && Step(t, e, validate).errors == map[])
  {
  }

  /** The last event of a run sets the mark exactly when it is a submit that found no error. */
  lemma RunLastSubmitted(s: State, events: seq<Event>, validate: FormValues -> map<string, string>)
    requires |events| > 0
    ensures Run(s, events, validate).values.submitted <==>
      Run(s, events[..|events| - 1], validate).values.submitted || SucceededAt(s, events, validate, |events| - 1)
  {
    var n := |events| - 1;
    assert events[..n + 1] == events;
    StepSubmitted(Run(s, events[..n], validate), events[n], validate);
  }

  /** Whether an earlier submit succeeded does not depend on the events after it. */
  lemma SucceededAtPrefix(s: State, events: seq<Event>, validate: FormValues -> map<string, string>, i: int)
    requires 0 <= i < |events| - 1
    ensures SucceededAt(s, events, validate, i) <==> SucceededAt(s, events[..|events| - 1], validate, i)
  {
    assert events[..|events| - 1][..i + 1] == events[..i + 1];
  }

  /**
   The form is marked submitted exactly when it started so or some submit
   along the way succeeded: a later failing submit never clears the mark.
   */
  lemma {:induction false} SubmittedIffSomeSubmitSucceeded(s: State, events: seq<Event>, validate: FormValues -> map<string, string>)
    ensures Run(s, events, validate).values.submitted <==>
      s.values.submitted || exists i :: SucceededAt(s, events, validate, i)
  {
    if |events| > 0 {
      var n := |events| - 1;
      var prefix := events[..n];
      RunLastSubmitted(s, events, validate);
      SubmittedIffSomeSubmitSucceeded(s, prefix, validate);
      if exists i :: SucceededAt(s, events, validate, i) {
        var i :| SucceededAt(s, events, validate, i);
        if i < n {
          SucceededAtPrefix(s, events, validate, i);
        }
      }
      if exists i :: SucceededAt(s, prefix, validate, i) {
        var i :| SucceededAt(s, prefix, validate, i);
        SucceededAtPrefix(s, events, validate, i);
      }
    }
  }

  /** From a freshly created form, the mark is set exactly when some submit has succeeded. */
  lemma SubmittedFromStart(events: seq<Event>, validate: FormValues -> map<string, string>)
    ensures Run(Start, events, validate).values.submitted <==>
      exists i :: SucceededAt(Start, events, validate, i)
  {
    SubmittedIffSomeSubmitSucceeded(Start, events, validate);
  }

  /** The job application form's hook: `useForm` given the form's own validator. */
  function FormValidator(host: Host): FormValues -> map<string, string> {
    v => Validate(v, host)
  }

  /** With the form's own validator, a submit succeeds exactly when every field passes its rule. */
  lemma FormSubmitSucceedsIff(s: State, host: Host)
    ensures Submit(s, FormValidator(host)).errors == map[] <==>
      forall k :: ExpectedError(s.values, host, k) == None
  {
    ValidateEmptyIff(s.values, host);
  }

  /** Submitting the example applicant succeeds and leaves no error. */
  lemma ExampleSubmitSucceeds(host: Host, time: string)
    requires host.toNumber("3") == Some(3.0) && time != "" && host.parsesAsDate(time)
    ensures var s' := Submit(State(Example("jo@x.com", time), map[]), FormValidator(host));
      s'.values.submitted && s'.errors == map[]
  {
    ExampleIsValid(host, time);
  }

  /**
   After a successful submit, breaking the e-mail address and submitting
   again shows the e-mail error while the form stays marked submitted.
   */
  lemma StaleSubmittedAfterFailedSubmit(host: Host, time: string)
    requires host.toNumber("3") == Some(3.0) && time != "" && host.parsesAsDate(time)
    ensures var s1 := Submit(State(Example("jo@x.com", time), map[]), FormValidator(host));
      var s2 := Submit(InputChange(s1, Email, "bad"), FormValidator(host));
      s1.values.submitted && s2.errors == map[EmailKey := EmailInvalid] && s2.values.submitted
  {
    ExampleIsValid(host, time);
    ExampleBadEmail(host, time);
    var s1 := Submit(State(Example("jo@x.com", time), map[]), FormValidator(host));
    var v := InputChange(s1, Email, "bad").values;
    assert v == Example("bad", time).(submitted := true);
    assert Validate(v, host) == Validate(Example("bad", time), host);
  }
}
